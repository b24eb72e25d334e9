/**
 Reading partition metadata row by row (internal/adapters/mysql8/table_statistics.go) and the service's
 independent check of the result (internal/queryservice/table_statistics.go).
 */
module PartitionStatistics {
  import opened Wrappers
  import opened Sequences
  import opened Digits
  import opened JsonText
  import opened KeysetCursor

  // ------------------------------------------------------------------- result

  type Metric = Option<Bytes>

  datatype Statistics = Statistics(rows: Metric, data: Metric, index: Metric)

  datatype Entry = Entry(name: Bytes, ordinal: nat, statistics: Statistics)

  datatype Group = Group(name: Bytes, ordinal: nat, subpartitions: seq<Entry>)

  datatype Kind = Unread | Unpartitioned | Partitioned | Subpartitioned

  datatype Partitioning = Partitioning(
    kind: Kind, method_: string, subMethod: string, partitions: seq<Entry>, groups: seq<Group>)

  const MAX_LEAVES := 8192

  /** The rune checks and the case folding of names, which this model does not look into. */
  datatype Names = Names(plain: Bytes -> bool, fold: Bytes -> Bytes)

  predicate ValidName(names: Names, name: Bytes) {
    1 <= |name| <= 256 && ValidUtf8(name) && RuneCount(name) <= 64 && names.plain(name)
  }

  const METHODS := {"hash", "linear_hash", "key", "linear_key", "range", "range_columns", "list", "list_columns"}
  const PARENT_METHODS := {"range", "range_columns", "list", "list_columns"}
  const SUB_METHODS := {"hash", "linear_hash", "key", "linear_key"}

  /** Canonical digits of an unsigned 64-bit number. */
  predicate ValidMetric(metric: Metric) {
    metric.Some? ==>
      var digits := Chars(metric.value);
      1 <= |digits| <= 20 && AllDigits(digits) && (|digits| > 1 ==> digits[0] != '0') && NatOf(digits) < 0x1_0000_0000_0000_0000
  }

  predicate ValidStatistics(s: Statistics) {
    ValidMetric(s.rows) && ValidMetric(s.data) && ValidMetric(s.index)
  }

  // ----------------------------------------------------------------- validity

  predicate EntriesValid(names: Names, entries: seq<Entry>) {
    forall i :: 0 <= i < |entries| ==>
      entries[i].ordinal == i + 1 && ValidName(names, entries[i].name) && ValidStatistics(entries[i].statistics)
  }

  function Folds(names: Names, entries: seq<Entry>): (folds: seq<Bytes>)
    ensures |folds| == |entries|
  {
    if entries == [] then []
    else Folds(names, entries[..|entries| - 1]) + [names.fold(entries[|entries| - 1].name)]
  }

  function GroupFolds(names: Names, groups: seq<Group>): (folds: seq<Bytes>)
    ensures |folds| == |groups|
  {
    if groups == [] then [] else GroupFolds(names, groups[..|groups| - 1]) + [names.fold(groups[|groups| - 1].name)]
  }

  /** A subpartition with the partition it belongs to. */
  datatype Leaf = Leaf(group: Bytes, ordinal: nat, entry: Entry)

  function LeavesOf(g: Group): (leaves: seq<Leaf>)
    ensures |leaves| == |g.subpartitions|
  {
    seq(|g.subpartitions|, i requires 0 <= i < |g.subpartitions| => Leaf(g.name, g.ordinal, g.subpartitions[i]))
  }

  /** All subpartitions, in order. */
  function Leaves(groups: seq<Group>): seq<Leaf> {
    if groups == [] then [] else Leaves(groups[..|groups| - 1]) + LeavesOf(groups[|groups| - 1])
  }

  function LeafFolds(names: Names, leaves: seq<Leaf>): (folds: seq<Bytes>)
    ensures |folds| == |leaves|
  {
    if leaves == [] then []
    else LeafFolds(names, leaves[..|leaves| - 1]) + [names.fold(leaves[|leaves| - 1].entry.name)]
  }

  predicate GroupsValid(names: Names, groups: seq<Group>) {
    forall i :: 0 <= i < |groups| ==>
      && groups[i].ordinal == i + 1 && ValidName(names, groups[i].name) && groups[i].subpartitions != []
      && EntriesValid(names, groups[i].subpartitions)
  }

  predicate ValidPartitions(names: Names, p: Partitioning) {
    && p.method_ in METHODS && p.subMethod == "" && p.groups == [] && 1 <= |p.partitions| <= MAX_LEAVES
    && EntriesValid(names, p.partitions) && NoDuplicates(Folds(names, p.partitions))
  }

  predicate ValidGroups(names: Names, p: Partitioning) {
    && p.method_ in PARENT_METHODS && p.subMethod in SUB_METHODS && p.partitions == [] && 1 <= |p.groups|
    && GroupsValid(names, p.groups) && NoDuplicates(GroupFolds(names, p.groups)) && NoDuplicates(LeafFolds(names, Leaves(p.groups)))
    && |Leaves(p.groups)| <= MAX_LEAVES
  }

  /** What the service accepts, with the partition and subpartition counts. */
  function Verdict(names: Names, p: Partitioning): Option<(nat, nat)> {
    match p.kind
    case Unpartitioned =>
      if p == Partitioning(Unpartitioned, "", "", [], []) then Some((0, 0)) else None
    case Partitioned => if ValidPartitions(names, p) then Some((|p.partitions|, 0)) else None
    case Subpartitioned => if ValidGroups(names, p) then Some((|p.groups|, |Leaves(p.groups)|)) else None
    case Unread => None
  }

  // --------------------------------------------------------------------- JSON

  function MetricText(metric: Metric): Bytes {
    if metric == None then Ascii("null")
    else Ascii("{\"value\":") + JsonString(metric.value) + Ascii(",\"estimated\":true}")
  }

  function StatisticsText(s: Statistics): Bytes {
    Ascii("{\"estimated_rows\":") + MetricText(s.rows) + Ascii(",\"data_bytes\":") + MetricText(s.data)
    + Ascii(",\"index_bytes\":") + MetricText(s.index) + Ascii("}")
  }

  function EntryText(e: Entry): Bytes {
    Ascii("{\"name\":") + JsonString(e.name) + Ascii(",\"ordinal\":") + Ascii(Decimal(e.ordinal))
    + Ascii(",\"statistics\":") + StatisticsText(e.statistics) + Ascii("}")
  }

  function EntriesText(entries: seq<Entry>): Bytes {
    if entries == [] then []
    else
      EntriesText(entries[..|entries| - 1]) + (if |entries| == 1 then [] else Ascii(","))
      + EntryText(entries[|entries| - 1])
  }

  function GroupText(g: Group): Bytes {
    Ascii("{\"name\":") + JsonString(g.name) + Ascii(",\"ordinal\":") + Ascii(Decimal(g.ordinal))
    + Ascii(",\"subpartitions\":[") + EntriesText(g.subpartitions) + Ascii("]}")
  }

  function GroupsText(groups: seq<Group>): Bytes {
    if groups == [] then []
    else
      GroupsText(groups[..|groups| - 1]) + (if |groups| == 1 then [] else Ascii(",")) + GroupText(groups[|groups| - 1])
  }

  /** PartitioningResult.MarshalJSON. */
  function PartitioningText(p: Partitioning): Bytes {
    match p.kind
    case Partitioned =>
      Ascii("{\"kind\":\"partitioned\",\"method\":") + JsonString(Ascii(p.method_)) + Ascii(",\"partitions\":[")
      + EntriesText(p.partitions) + Ascii("]}")
    case Subpartitioned =>
      Ascii("{\"kind\":\"subpartitioned\",\"method\":") + JsonString(Ascii(p.method_)) + Ascii(",\"subpartition_method\":")
      + JsonString(Ascii(p.subMethod)) + Ascii(",\"partitions\":[") + GroupsText(p.groups) + Ascii("]}")
    case _ => Ascii("{\"kind\":\"none\"}")
  }

  /** Digits and the method names need no escaping. */
  lemma PlainSize(text: Bytes)
    requires Unescaped(text)
    ensures |JsonString(text)| == 2 + |text|
  {
    hide EncodedCharacters, Unescaped;
    PlainCharacters(text);
  }

  lemma MetricSize(metric: Metric)
    requires ValidMetric(metric)
    ensures |MetricText(metric)| == if metric == None then 4 else 27 + (2 + |metric.value|)
  {
    if metric.Some? {
      var digits := Chars(metric.value);
      forall i | 0 <= i < |metric.value| ensures 48 <= metric.value[i] <= 57 {
        assert digits[i] == metric.value[i] as char;
      }
      hide NatOf, JsonString;
      PlainSize(metric.value);
      assert |"{\"value\":"| == 9 && |",\"estimated\":true}"| == 18;
    }
  }

  lemma StatisticsSizes(s: Statistics)
    ensures |StatisticsText(s)| == 48 + |MetricText(s.rows)| + |MetricText(s.data)| + |MetricText(s.index)|
  {
    hide MetricText;
    assert |"{\"estimated_rows\":"| == 18 && |",\"data_bytes\":"| == 14 && |",\"index_bytes\":"| == 15;
  }

  lemma EntrySizes(e: Entry)
    ensures |EntryText(e)| == 34 + |JsonString(e.name)| + |Decimal(e.ordinal)| + |StatisticsText(e.statistics)|
  {
    hide JsonString, Decimal, StatisticsText;
    assert |"{\"name\":"| == 8 && |",\"ordinal\":"| == 11 && |",\"statistics\":"| == 14;
  }

  lemma GroupSizes(g: Group)
    ensures |GroupText(g)| == 39 + |JsonString(g.name)| + |Decimal(g.ordinal)| + |EntriesText(g.subpartitions)|
  {
    hide JsonString, Decimal, EntriesText;
    assert |"{\"name\":"| == 8 && |",\"ordinal\":"| == 11 && |",\"subpartitions\":["| == 18;
  }

  lemma MethodSize(m: string)
    requires m in METHODS
    ensures |JsonString(Ascii(m))| == 2 + |m|
  {
    hide *;
    forall i: nat | i < |m| ensures 95 <= m[i] as int <= 122 {
      LettersOnly(m, i);
    }
    LettersUnescaped(m);
    PlainSize(Ascii(m));
  }

  lemma LettersUnescaped(m: string)
    requires forall i: nat :: i < |m| ==> 95 <= m[i] as int <= 122
    ensures Unescaped(Ascii(m))
  {
  }

  lemma LettersOnly(m: string, i: nat)
    requires m in METHODS && i < |m|
    ensures 95 <= m[i] as int <= 122
  {
  }

  lemma PartitioningSizes(p: Partitioning)
    ensures p.kind == Partitioned ==>
              |PartitioningText(p)| == 48 + |JsonString(Ascii(p.method_))| + |EntriesText(p.partitions)|
    ensures p.kind == Subpartitioned ==>
              |PartitioningText(p)|
              == 74 + |JsonString(Ascii(p.method_))| + |JsonString(Ascii(p.subMethod))| + |GroupsText(p.groups)|
    ensures p.kind == Unpartitioned || p.kind == Unread ==> |PartitioningText(p)| == 15
  {
    hide JsonString, EntriesText, GroupsText;
    assert |"{\"kind\":\"partitioned\",\"method\":"| == 31 && |",\"partitions\":["| == 15;
    assert |"{\"kind\":\"subpartitioned\",\"method\":"| == 34 && |",\"subpartition_method\":"| == 23;
  }

  lemma EntriesGrow(entries: seq<Entry>, e: Entry)
    ensures |EntriesText(entries + [e])| == |EntriesText(entries)| + (if entries == [] then 0 else 1) + |EntryText(e)|
    ensures EntriesText([]) == []
  {
    hide EntryText;
    assert (entries + [e])[..|entries + [e]| - 1] == entries;
  }

  lemma GroupsGrow(groups: seq<Group>, g: Group)
    ensures |GroupsText(groups + [g])| == |GroupsText(groups)| + (if groups == [] then 0 else 1) + |GroupText(g)|
    ensures GroupsText([]) == []
  {
    hide GroupText;
    assert (groups + [g])[..|groups + [g]| - 1] == groups;
  }

  // -------------------------------------------------------------------- sizes

  function Within(size: nat, maximum: int): Option<int> {
    if size <= maximum then Some(size) else None
  }

  lemma WithinParts(size: nat, maximum: int)
    ensures Within(size, maximum) == if size <= maximum then Some(size) else None
  {
  }

  method StatisticsSize(s: Statistics, maximum: int) returns (r: Option<int>)
    requires ValidStatistics(s)
    ensures r == Within(|StatisticsText(s)|, maximum)
  {
    hide MetricText, StatisticsText, ValidMetric;
    var metrics := [s.rows, s.data, s.index];
    StatisticsSizes(s);
    MetricSize(s.rows);
    MetricSize(s.data);
    MetricSize(s.index);
    var size := 48;
    if size > maximum {
      return None;
    }
    for i := 0 to 3
      invariant size <= maximum
      invariant size == 48 + (if i > 0 then |MetricText(s.rows)| else 0) + (if i > 1 then |MetricText(s.data)| else 0)
                      + (if i > 2 then |MetricText(s.index)| else 0)
    {
      var metricSize := 4;
      if metrics[i].Some? {
        metricSize := 27 + (2 + |metrics[i].value|);
      }
      var added := AddEncodedSize(size, metricSize, maximum);
      if added == None {
        return None;
      }
      size := added.value;
    }
    r := Some(size);
  }

  method EntrySize(e: Entry, maximum: int) returns (r: Option<int>)
    requires ValidStatistics(e.statistics)
    ensures r == Within(|EntryText(e)|, maximum)
  {
    hide *;
    EntrySizes(e);
    WithinParts(|EntryText(e)|, maximum);
    var size := 34 + |Decimal(e.ordinal)|;
    var nameBytes := EncodedJsonStringSize(e.name, maximum - size);
    if nameBytes == None {
      return None;
    }
    size := size + nameBytes.value;
    WithinParts(|StatisticsText(e.statistics)|, maximum - size);
    var statisticsBytes := StatisticsSize(e.statistics, maximum - size);
    if statisticsBytes == None {
      return None;
    }
    AddedSize(size, statisticsBytes.value, maximum);
    r := AddEncodedSize(size, statisticsBytes.value, maximum);
  }

  predicate StatisticsValid(entries: seq<Entry>) {
    forall i :: 0 <= i < |entries| ==> ValidStatistics(entries[i].statistics)
  }

  lemma EntryStep(entries: seq<Entry>, i: nat)
    requires i < |entries| && StatisticsValid(entries)
    ensures ValidStatistics(entries[i].statistics)
    ensures |EntriesText(entries[..i + 1])| == |EntriesText(entries[..i])| + (if i == 0 then 0 else 1) + |EntryText(entries[i])|
    ensures |EntriesText(entries[..i + 1])| <= |EntriesText(entries)|
  {
    hide EntryText, ValidStatistics;
    assert entries[..i + 1] == entries[..i] + [entries[i]];
    EntriesGrow(entries[..i], entries[i]);
    EntriesMonotone(entries, i + 1);
  }

  lemma {:induction false} EntriesMonotone(entries: seq<Entry>, i: nat)
    requires i <= |entries|
    ensures |EntriesText(entries[..i])| <= |EntriesText(entries)|
    ensures entries[..|entries|] == entries && EntriesText(entries[..0]) == []
    decreases |entries|
  {
    hide EntryText;
    if i < |entries| {
      var n := |entries| - 1;
      assert entries[..n][..i] == entries[..i];
      EntriesMonotone(entries[..n], i);
    } else {
      assert entries[..i] == entries;
    }
  }

  /** The entry loops of the size functions. */
  method EntriesSize(entries: seq<Entry>, base: nat, maximum: int) returns (r: Option<int>)
    requires StatisticsValid(entries) && base <= maximum
    ensures r == Within(base + |EntriesText(entries)|, maximum)
  {
    hide *;
    WithinParts(base + |EntriesText(entries)|, maximum);
    EntriesMonotone(entries, 0);
    var size: int := base;
    for i := 0 to |entries|
      invariant size == base + |EntriesText(entries[..i])| <= maximum
    {
      EntryStep(entries, i);
      WithinParts(|EntryText(entries[i])|, maximum - size);
      var increment := EntrySize(entries[i], maximum - size);
      if increment == None {
        return None;
      }
      var grown := if i != 0 then increment.value + 1 else increment.value;
      AddedSize(size, grown, maximum);
      var added := AddEncodedSize(size, grown, maximum);
      if added == None {
        return None;
      }
      size := added.value;
    }
    r := Some(size);
  }

  method GroupSize(g: Group, maximum: int) returns (r: Option<int>)
    requires StatisticsValid(g.subpartitions)
    ensures r == Within(|GroupText(g)|, maximum)
  {
    hide *;
    GroupSizes(g);
    WithinParts(|GroupText(g)|, maximum);
    var size := 39 + |Decimal(g.ordinal)|;
    var nameBytes := EncodedJsonStringSize(g.name, maximum - size);
    if nameBytes == None {
      return None;
    }
    size := size + nameBytes.value;
    WithinParts(size + |EntriesText(g.subpartitions)|, maximum);
    r := EntriesSize(g.subpartitions, size, maximum);
  }

  predicate GroupStatisticsValid(groups: seq<Group>) {
    forall i :: 0 <= i < |groups| ==> StatisticsValid(groups[i].subpartitions)
  }

  lemma GroupStep(groups: seq<Group>, i: nat)
    requires i < |groups| && GroupStatisticsValid(groups)
    ensures StatisticsValid(groups[i].subpartitions)
    ensures |GroupsText(groups[..i + 1])| == |GroupsText(groups[..i])| + (if i == 0 then 0 else 1) + |GroupText(groups[i])|
    ensures |GroupsText(groups[..i + 1])| <= |GroupsText(groups)|
  {
    hide GroupText, StatisticsValid;
    assert groups[..i + 1] == groups[..i] + [groups[i]];
    GroupsGrow(groups[..i], groups[i]);
    GroupsMonotone(groups, i + 1);
  }

  lemma {:induction false} GroupsMonotone(groups: seq<Group>, i: nat)
    requires i <= |groups|
    ensures |GroupsText(groups[..i])| <= |GroupsText(groups)|
    ensures groups[..|groups|] == groups && GroupsText(groups[..0]) == []
    decreases |groups|
  {
    hide GroupText;
    if i < |groups| {
      var n := |groups| - 1;
      assert groups[..n][..i] == groups[..i];
      GroupsMonotone(groups[..n], i);
    } else {
      assert groups[..i] == groups;
    }
  }

  predicate Measurable(p: Partitioning) {
    && (p.kind == Partitioned ==> p.method_ in METHODS && StatisticsValid(p.partitions))
    && (p.kind == Subpartitioned ==> p.method_ in METHODS && p.subMethod in METHODS && GroupStatisticsValid(p.groups))
  }

  /** encodedPartitioningSize, over the whole result at once. */
  method PartitioningSize(p: Partitioning, maximum: int) returns (r: Option<int>)
    requires Measurable(p) && p.kind != Unread
    ensures r == Within(|PartitioningText(p)|, maximum)
  {
    hide JsonString, EntriesText, GroupsText, PartitioningText, GroupText, StatisticsValid, GroupStatisticsValid;
    PartitioningSizes(p);
    if p.kind == Unpartitioned {
      return AddEncodedSize(0, 15, maximum);
    }
    MethodSize(p.method_);
    if p.kind == Partitioned {
      var size := 48 + (2 + |p.method_|);
      if size > maximum {
        return None;
      }
      r := EntriesSize(p.partitions, size, maximum);
    } else {
      MethodSize(p.subMethod);
      var size := 74 + (2 + |p.method_|) + (2 + |p.subMethod|);
      if size > maximum {
        return None;
      }
      r := GroupsSize(p.groups, size, maximum);
    }
  }

  /** The group loop of encodedPartitioningSize. */
  method GroupsSize(groups: seq<Group>, base: nat, maximum: int) returns (r: Option<int>)
    requires GroupStatisticsValid(groups) && base <= maximum
    ensures r == Within(base + |GroupsText(groups)|, maximum)
  {
    hide *;
    WithinParts(base + |GroupsText(groups)|, maximum);
    GroupsMonotone(groups, 0);
    var size: int := base;
    for i := 0 to |groups|
      invariant size == base + |GroupsText(groups[..i])| <= maximum
    {
      GroupStep(groups, i);
      WithinParts(|GroupText(groups[i])|, maximum - size);
      var increment := GroupSize(groups[i], maximum - size);
      if increment == None {
        return None;
      }
      var grown := if i != 0 then increment.value + 1 else increment.value;
      AddedSize(size, grown, maximum);
      var added := AddEncodedSize(size, grown, maximum);
      if added == None {
        return None;
      }
      size := added.value;
    }
    r := Some(size);
  }

  // ---------------------------------------------------------------- validator

  /** insertStatisticsMetadataName's keys seen so far. */
  function Seen(folds: seq<Bytes>): set<Bytes> {
    set f | f in folds
  }

  lemma DistinctEnd(folds: seq<Bytes>, f: Bytes)
    ensures NoDuplicates(folds + [f]) == (NoDuplicates(folds) && f !in folds)
    ensures Seen(folds + [f]) == Seen(folds) + {f} && (f in Seen(folds) <==> f in folds)
    ensures NoDuplicates<Bytes>([]) && Seen([]) == {}
  {
    assert (folds + [f])[..|folds + [f]| - 1] == folds;
  }

  lemma {:induction false} DistinctPrefix(folds: seq<Bytes>, n: nat)
    requires n <= |folds| && NoDuplicates(folds)
    ensures NoDuplicates(folds[..n])
    decreases |folds|
  {
    if n == |folds| {
      assert folds[..n] == folds;
    } else {
      var init := folds[..|folds| - 1];
      assert init[..n] == folds[..n];
      DistinctPrefix(init, n);
    }
  }

  lemma {:induction false} FoldsPrefix(names: Names, entries: seq<Entry>, n: nat)
    requires n <= |entries|
    ensures Folds(names, entries)[..n] == Folds(names, entries[..n])
    ensures n < |entries| ==> Folds(names, entries[..n + 1]) == Folds(names, entries[..n]) + [names.fold(entries[n].name)]
    ensures entries[..|entries|] == entries
    decreases |entries|
  {
    if n == |entries| {
      assert entries[..n] == entries;
    } else {
      var init := entries[..|entries| - 1];
      assert init[..n] == entries[..n];
      FoldsPrefix(names, init, n);
      assert entries[..n + 1][..n] == entries[..n];
    }
  }

  /** The validator's loop over partition entries. */
  method CheckPartitions(names: Names, entries: seq<Entry>) returns (ok: bool)
    ensures ok == (EntriesValid(names, entries) && NoDuplicates(Folds(names, entries)))
  {
    hide ValidName, ValidStatistics, Folds, NoDuplicates, Seen;
    var seen: set<Bytes> := {};
    DistinctEnd([], []);
    FoldsPrefix(names, entries, 0);
    assert Folds(names, entries[..0]) == [];
    for i := 0 to |entries|
      invariant seen == Seen(Folds(names, entries[..i])) && NoDuplicates(Folds(names, entries[..i]))
      invariant forall j :: 0 <= j < i ==>
                  entries[j].ordinal == j + 1 && ValidName(names, entries[j].name) && ValidStatistics(entries[j].statistics)
    {
      var entry := entries[i];
      FoldsPrefix(names, entries, i);
      FoldsPrefix(names, entries, i + 1);
      DistinctEnd(Folds(names, entries[..i]), names.fold(entry.name));
      if entry.ordinal != i + 1 || !ValidName(names, entry.name) {
        return false;
      }
      if names.fold(entry.name) in seen {
        if NoDuplicates(Folds(names, entries)) {
          DistinctPrefix(Folds(names, entries), i + 1);
        }
        return false;
      }
      seen := seen + {names.fold(entry.name)};
      if !ValidStatistics(entry.statistics) {
        return false;
      }
    }
    ok := true;
  }

  lemma LeafFoldsEnd(names: Names, leaves: seq<Leaf>, leaf: Leaf)
    ensures LeafFolds(names, leaves + [leaf]) == LeafFolds(names, leaves) + [names.fold(leaf.entry.name)]
    ensures LeafFolds(names, []) == []
  {
    assert (leaves + [leaf])[..|leaves + [leaf]| - 1] == leaves;
  }

  lemma {:induction false} LeafFoldsPrefix(names: Names, leaves: seq<Leaf>, more: seq<Leaf>)
    ensures LeafFolds(names, leaves + more)[..|leaves|] == LeafFolds(names, leaves)
    ensures NoDuplicates(LeafFolds(names, leaves + more)) ==> NoDuplicates(LeafFolds(names, leaves))
    decreases |more|
  {
    if more == [] {
      assert leaves + more == leaves;
    } else {
      var init := more[..|more| - 1];
      assert (leaves + more)[..|leaves + more| - 1] == leaves + init;
      LeafFoldsPrefix(names, leaves, init);
    }
  }

  /** The validator's inner loop; the names of all groups' subpartitions share one set. */
  method CheckGroup(names: Names, g: Group, before: seq<Leaf>, seen: set<Bytes>) returns (ok: bool, after: set<Bytes>)
    requires seen == Seen(LeafFolds(names, before)) && NoDuplicates(LeafFolds(names, before))
    ensures ok == (EntriesValid(names, g.subpartitions) && NoDuplicates(LeafFolds(names, before + LeavesOf(g))))
    ensures ok ==> after == Seen(LeafFolds(names, before + LeavesOf(g)))
  {
    hide ValidName, ValidStatistics, LeafFolds, NoDuplicates, Seen;
    after := seen;
    var entries := g.subpartitions;
    assert LeavesOf(g)[..0] == [] && before + [] == before;
    for i := 0 to |entries|
      invariant after == Seen(LeafFolds(names, before + LeavesOf(g)[..i])) && NoDuplicates(LeafFolds(names, before + LeavesOf(g)[..i]))
      invariant forall j :: 0 <= j < i ==>
                  entries[j].ordinal == j + 1 && ValidName(names, entries[j].name) && ValidStatistics(entries[j].statistics)
    {
      var entry := entries[i];
      var now := before + LeavesOf(g)[..i];
      LeafStep(before, LeavesOf(g), i);
      LeafFoldsEnd(names, now, LeavesOf(g)[i]);
      DistinctEnd(LeafFolds(names, now), names.fold(entry.name));
      if entry.ordinal != i + 1 || !ValidName(names, entry.name) {
        return false, after;
      }
      if names.fold(entry.name) in after {
        LeafFoldsPrefix(names, before + LeavesOf(g)[..i + 1], LeavesOf(g)[i + 1..]);
        return false, after;
      }
      after := after + {names.fold(entry.name)};
      if !ValidStatistics(entry.statistics) {
        return false, after;
      }
    }
    assert LeavesOf(g)[..|entries|] == LeavesOf(g);
    ok := true;
  }

  lemma LeafStep(before: seq<Leaf>, leaves: seq<Leaf>, i: nat)
    requires i < |leaves|
    ensures before + leaves[..i + 1] == (before + leaves[..i]) + [leaves[i]]
    ensures (before + leaves[..i + 1]) + leaves[i + 1..] == before + leaves
  {
    assert leaves[..i + 1] == leaves[..i] + [leaves[i]];
    assert leaves[..i + 1] + leaves[i + 1..] == leaves;
  }

  lemma GroupsEnd(names: Names, groups: seq<Group>, g: Group)
    ensures GroupFolds(names, groups + [g]) == GroupFolds(names, groups) + [names.fold(g.name)]
    ensures Leaves(groups + [g]) == Leaves(groups) + LeavesOf(g)
    ensures GroupFolds(names, []) == [] && Leaves([]) == []
  {
    hide LeavesOf;
    assert (groups + [g])[..|groups + [g]| - 1] == groups;
  }

  /** Group i is fine after the groups before it. */
  predicate GroupPasses(names: Names, groups: seq<Group>, i: nat) {
    i < |groups|
    && groups[i].ordinal == i + 1 && ValidName(names, groups[i].name) && groups[i].subpartitions != []
    && EntriesValid(names, groups[i].subpartitions) && names.fold(groups[i].name) !in GroupFolds(names, groups[..i])
    && NoDuplicates(LeafFolds(names, Leaves(groups[..i + 1]))) && |Leaves(groups[..i + 1])| <= MAX_LEAVES
  }

  predicate GroupsPass(names: Names, groups: seq<Group>) {
    GroupsValid(names, groups) && NoDuplicates(GroupFolds(names, groups)) && NoDuplicates(LeafFolds(names, Leaves(groups)))
    && |Leaves(groups)| <= MAX_LEAVES
  }

  lemma GroupsPassStep(names: Names, groups: seq<Group>, i: nat)
    requires i < |groups| && GroupsPass(names, groups[..i])
    ensures GroupsPass(names, groups[..i + 1]) == GroupPasses(names, groups, i)
    ensures Leaves(groups[..i + 1]) == Leaves(groups[..i]) + LeavesOf(groups[i])
    ensures GroupFolds(names, groups[..i + 1]) == GroupFolds(names, groups[..i]) + [names.fold(groups[i].name)]
    ensures Seen(GroupFolds(names, groups[..i + 1])) == Seen(GroupFolds(names, groups[..i])) + {names.fold(groups[i].name)}
    ensures names.fold(groups[i].name) in Seen(GroupFolds(names, groups[..i]))
       <==> names.fold(groups[i].name) in GroupFolds(names, groups[..i])
  {
    hide EntriesValid, ValidName, LeafFolds, Leaves, GroupFolds, LeavesOf, NoDuplicates, Seen;
    assert groups[..i + 1] == groups[..i] + [groups[i]];
    GroupsEnd(names, groups[..i], groups[i]);
    DistinctEnd(GroupFolds(names, groups[..i]), names.fold(groups[i].name));
    var shorter, longer := groups[..i], groups[..i + 1];
    forall j | 0 <= j < i ensures shorter[j] == longer[j] {
    }
    assert longer[i] == groups[i];
  }

  lemma GroupsPassInit(names: Names, init: seq<Group>, g: Group)
    requires GroupsPass(names, init + [g])
    ensures GroupsPass(names, init)
  {
    hide EntriesValid, ValidName, LeafFolds, Leaves, GroupFolds, LeavesOf, NoDuplicates;
    GroupsEnd(names, init, g);
    DistinctEnd(GroupFolds(names, init), names.fold(g.name));
    LeafFoldsPrefix(names, Leaves(init), LeavesOf(g));
    var all := init + [g];
    forall j | 0 <= j < |init| ensures init[j] == all[j] {
    }
  }

  lemma SplitLast(groups: seq<Group>, n: nat)
    requires n < |groups|
    ensures groups == groups[..|groups| - 1] + [groups[|groups| - 1]]
    ensures groups[..|groups| - 1][..n] == groups[..n]
  {
  }

  /** A list of groups that passes has passing prefixes. */
  lemma {:induction false} GroupsPassPrefix(names: Names, groups: seq<Group>, n: nat)
    requires n <= |groups| && GroupsPass(names, groups)
    ensures GroupsPass(names, groups[..n])
    decreases |groups|
  {
    hide *;
    if n == |groups| {
      assert groups[..n] == groups;
    } else {
      SplitLast(groups, n);
      GroupsPassInit(names, groups[..|groups| - 1], groups[|groups| - 1]);
      GroupsPassPrefix(names, groups[..|groups| - 1], n);
    }
  }

  lemma NoGroups(names: Names, groups: seq<Group>)
    ensures GroupsPass(names, groups[..0]) && Leaves(groups[..0]) == [] && groups[..|groups|] == groups
    ensures Seen(GroupFolds(names, groups[..0])) == {} && Seen(LeafFolds(names, [])) == {} && NoDuplicates(LeafFolds(names, []))
  {
  }

  /** The validator's loop over partition groups. */
  method CheckGroups(names: Names, groups: seq<Group>) returns (ok: bool, leafCount: nat)
    ensures ok == GroupsPass(names, groups)
    ensures ok ==> leafCount == |Leaves(groups)|
  {
    hide *;
    var groupNames: set<Bytes>, leafNames: set<Bytes> := {}, {};
    leafCount := 0;
    NoGroups(names, groups);
    for i := 0 to |groups|
      invariant GroupsPass(names, groups[..i]) && leafCount == |Leaves(groups[..i])|
      invariant groupNames == Seen(GroupFolds(names, groups[..i]))
      invariant leafNames == Seen(LeafFolds(names, Leaves(groups[..i])))
    {
      var g := groups[i];
      GroupsPassStep(names, groups, i);
      GroupParts(names, groups, i);
      if g.ordinal != i + 1 || !ValidName(names, g.name) || names.fold(g.name) in groupNames || |g.subpartitions| == 0
         || |g.subpartitions| > MAX_LEAVES - leafCount {
        Rejected(names, groups, i);
        return false, leafCount;
      }
      groupNames := groupNames + {names.fold(g.name)};
      var fine, after := CheckGroup(names, g, Leaves(groups[..i]), leafNames);
      if !fine {
        Rejected(names, groups, i);
        return false, leafCount;
      }
      leafNames := after;
      leafCount := leafCount + |g.subpartitions|;
    }
    ok := true;
  }

  lemma GroupParts(names: Names, groups: seq<Group>, i: nat)
    requires i < |groups| && GroupsPass(names, groups[..i]) && Leaves(groups[..i + 1]) == Leaves(groups[..i]) + LeavesOf(groups[i])
    ensures GroupPasses(names, groups, i) ==
              (&& groups[i].ordinal == i + 1 && ValidName(names, groups[i].name) && groups[i].subpartitions != []
               && names.fold(groups[i].name) !in GroupFolds(names, groups[..i])
               && EntriesValid(names, groups[i].subpartitions)
               && NoDuplicates(LeafFolds(names, Leaves(groups[..i]) + LeavesOf(groups[i])))
               && |Leaves(groups[..i])| + |groups[i].subpartitions| <= MAX_LEAVES)
    ensures |Leaves(groups[..i + 1])| == |Leaves(groups[..i])| + |groups[i].subpartitions|
    ensures NoDuplicates(LeafFolds(names, Leaves(groups[..i])))
    ensures |groups[i].subpartitions| == 0 <==> groups[i].subpartitions == []
  {
    hide EntriesValid, ValidName, LeafFolds, Leaves, GroupFolds, NoDuplicates;
  }

  lemma Rejected(names: Names, groups: seq<Group>, i: nat)
    requires i < |groups| && !GroupsPass(names, groups[..i + 1])
    ensures !GroupsPass(names, groups)
  {
    hide *;
    if GroupsPass(names, groups) {
      GroupsPassPrefix(names, groups, i + 1);
    }
  }

  /** validatePartitioningResult. */
  method ValidateResult(names: Names, p: Partitioning) returns (r: Option<(nat, nat)>)
    ensures r == Verdict(names, p)
  {
    hide EntriesValid, Folds, LeafFolds, Leaves, GroupFolds, NoDuplicates, GroupsValid;
    match p.kind {
      case Unpartitioned =>
        if p.method_ != "" || p.subMethod != "" || |p.partitions| != 0 || |p.groups| != 0 {
          return None;
        }
        r := Some((0, 0));
      case Partitioned =>
        if p.method_ !in METHODS || p.subMethod != "" || |p.groups| != 0 || |p.partitions| == 0 || |p.partitions| > MAX_LEAVES {
          return None;
        }
        var ok := CheckPartitions(names, p.partitions);
        r := if ok then Some((|p.partitions|, 0)) else None;
      case Subpartitioned =>
        if p.method_ !in PARENT_METHODS || p.subMethod !in SUB_METHODS || |p.partitions| != 0 || |p.groups| == 0
           || |p.groups| > MAX_LEAVES {
          MoreGroupsThanLeaves(names, p.groups);
          return None;
        }
        var ok, leafCount := CheckGroups(names, p.groups);
        r := if ok then Some((|p.groups|, leafCount)) else None;
      case Unread =>
        r := None;
    }
  }

  lemma {:induction false} GroupsHaveLeaves(groups: seq<Group>)
    requires forall i :: 0 <= i < |groups| ==> groups[i].subpartitions != []
    ensures |Leaves(groups)| >= |groups|
  {
    if groups != [] {
      GroupsHaveLeaves(groups[..|groups| - 1]);
    }
  }

  /** The bound on leaves bounds the groups as well. */
  lemma MoreGroupsThanLeaves(names: Names, groups: seq<Group>)
    ensures GroupsPass(names, groups) ==> |groups| <= MAX_LEAVES
  {
    hide EntriesValid, LeafFolds, Leaves, GroupFolds, NoDuplicates;
    if GroupsPass(names, groups) {
      GroupsHaveLeaves(groups);
    }
  }

  // ------------------------------------------------------------------- reader

  /** One row of information_schema.partitions; None is SQL NULL. */
  datatype Row = Row(
    partitionName: Option<Bytes>, partitionOrdinal: Option<Bytes>, partitionMethod: Option<Bytes>,
    subName: Option<Bytes>, subOrdinal: Option<Bytes>, subMethod: Option<Bytes>,
    rows: Option<Bytes>, data: Option<Bytes>, index: Option<Bytes>)

  datatype ReadError = InvalidMetadata | TooLarge | ExecutionError | ResourceMismatch

  function ParseOrdinal(raw: Bytes): Option<nat> {
    if ValidMetric(Some(raw)) && 1 <= NatOf(Chars(raw)) <= MAX_LEAVES then Some(NatOf(Chars(raw))) else None
  }

  function MapMethod(raw: Bytes): Option<string> {
    if raw == Ascii("HASH") then Some("hash")
    else if raw == Ascii("LINEAR HASH") then Some("linear_hash")
    else if raw == Ascii("KEY") then Some("key")
    else if raw == Ascii("LINEAR KEY") then Some("linear_key")
    else if raw == Ascii("RANGE") then Some("range")
    else if raw == Ascii("RANGE COLUMNS") then Some("range_columns")
    else if raw == Ascii("LIST") then Some("list")
    else if raw == Ascii("LIST COLUMNS") then Some("list_columns")
    else None
  }

  function StatisticsOf(row: Row): Statistics {
    Statistics(row.rows, row.data, row.index)
  }

  /** The method as information_schema writes it. */
  function ServerName(m: string): string {
    if m == "hash" then "HASH"
    else if m == "linear_hash" then "LINEAR HASH"
    else if m == "key" then "KEY"
    else if m == "linear_key" then "LINEAR KEY"
    else if m == "range" then "RANGE"
    else if m == "range_columns" then "RANGE COLUMNS"
    else if m == "list" then "LIST"
    else "LIST COLUMNS"
  }

  predicate SaysMethod(raw: Option<Bytes>, m: string) {
    m in METHODS && raw == Some(Ascii(ServerName(m)))
  }

  /** The column holds the decimal text of an ordinal that a partition can have. */
  predicate SaysOrdinal(raw: Option<Bytes>, n: nat) {
    1 <= n <= MAX_LEAVES && raw == Some(Ascii(Decimal(n)))
  }

  /** Each metric comes from its own column. */
  predicate SaysStatistics(row: Row, s: Statistics) {
    s.rows == row.rows && s.data == row.data && s.index == row.index
  }

  /** The row says what the leaf says. */
  predicate Describes(row: Row, leaf: Leaf) {
    && row.partitionName == Some(leaf.group) && SaysOrdinal(row.partitionOrdinal, leaf.ordinal)
    && row.subName == Some(leaf.entry.name) && SaysOrdinal(row.subOrdinal, leaf.entry.ordinal)
    && SaysStatistics(row, leaf.entry.statistics)
  }

  predicate DescribesEntry(row: Row, e: Entry) {
    && row.partitionName == Some(e.name) && SaysOrdinal(row.partitionOrdinal, e.ordinal) && SaysStatistics(row, e.statistics)
  }

  lemma {:induction false} DecimalLength(n: nat, digits: nat)
    requires digits >= 1 && n < Shift(1, digits)
    ensures |Decimal(n)| <= digits
  {
    if n >= 10 {
      DecimalLength(n / 10, digits - 1);
    }
  }

  /** Parsing accepts exactly the decimal texts of such ordinals. */
  lemma OrdinalIsParsed(raw: Option<Bytes>, n: nat)
    ensures SaysOrdinal(raw, n) == (raw.Some? && ParseOrdinal(raw.value) == Some(n))
  {
    if raw.Some? {
      if ParseOrdinal(raw.value) == Some(n) {
        CanonicalIsDecimal(Chars(raw.value));
        AsciiOfChars(raw.value);
      }
      if SaysOrdinal(raw, n) {
        CharsOfAscii(Decimal(n));
        DecimalDenotes(n);
        assert Shift(1, 5) == 100000;
        DecimalLength(n, 5);
        OneDigitOrMore(n);
      }
    }
  }

  lemma OneDigitOrMore(n: nat)
    ensures |Decimal(n)| > 1 ==> Decimal(n)[0] != '0'
  {
    DecimalDenotes(n);
  }

  /** The server's names differ in length, or in their first letter. */
  lemma ServerNamesDiffer()
    ensures |Ascii("HASH")| == 4 && |Ascii("LINEAR HASH")| == 11 && |Ascii("KEY")| == 3 && |Ascii("LINEAR KEY")| == 10
    ensures |Ascii("RANGE")| == 5 && |Ascii("RANGE COLUMNS")| == 13 && |Ascii("LIST")| == 4 && |Ascii("LIST COLUMNS")| == 12
    ensures Ascii("HASH")[0] != Ascii("LIST")[0]
  {
  }

  lemma MethodIsMapped(raw: Option<Bytes>, m: string)
    ensures SaysMethod(raw, m) == (raw.Some? && MapMethod(raw.value) == Some(m))
  {
    hide Ascii;
    ServerNamesDiffer();
  }

  /** What a row's ordinals and methods say is what parsing and mapping them gives. */
  lemma RowIsParsed(row: Row)
    ensures forall n: nat :: SaysOrdinal(row.partitionOrdinal, n) ==
              (row.partitionOrdinal.Some? && ParseOrdinal(row.partitionOrdinal.value) == Some(n))
    ensures forall n: nat :: SaysOrdinal(row.subOrdinal, n) == (row.subOrdinal.Some? && ParseOrdinal(row.subOrdinal.value) == Some(n))
    ensures forall m: string :: SaysMethod(row.partitionMethod, m) ==
              (row.partitionMethod.Some? && MapMethod(row.partitionMethod.value) == Some(m))
    ensures forall m: string :: SaysMethod(row.subMethod, m) == (row.subMethod.Some? && MapMethod(row.subMethod.value) == Some(m))
  {
    hide *;
    forall n: nat
      ensures SaysOrdinal(row.partitionOrdinal, n) ==
                (row.partitionOrdinal.Some? && ParseOrdinal(row.partitionOrdinal.value) == Some(n))
      ensures SaysOrdinal(row.subOrdinal, n) == (row.subOrdinal.Some? && ParseOrdinal(row.subOrdinal.value) == Some(n))
    {
      OrdinalIsParsed(row.partitionOrdinal, n);
      OrdinalIsParsed(row.subOrdinal, n);
    }
    forall m: string
      ensures SaysMethod(row.partitionMethod, m) ==
                (row.partitionMethod.Some? && MapMethod(row.partitionMethod.value) == Some(m))
      ensures SaysMethod(row.subMethod, m) == (row.subMethod.Some? && MapMethod(row.subMethod.value) == Some(m))
    {
      MethodIsMapped(row.partitionMethod, m);
      MethodIsMapped(row.subMethod, m);
    }
  }

  /** The row has the columns of the result's kind, with the result's methods. */
  predicate RowSays(row: Row, p: Partitioning) {
    match p.kind
    case Unread => false
    case Unpartitioned =>
      && row.partitionName == None && row.partitionOrdinal == None && row.partitionMethod == None
      && row.subName == None && row.subOrdinal == None && row.subMethod == None
    case Partitioned =>
      SaysMethod(row.partitionMethod, p.method_) && row.subName == None && row.subOrdinal == None && row.subMethod == None
    case Subpartitioned =>
      SaysMethod(row.partitionMethod, p.method_) && SaysMethod(row.subMethod, p.subMethod)
  }

  predicate RowsSay(rows: seq<Row>, p: Partitioning) {
    forall i :: 0 <= i < |rows| ==> RowSays(rows[i], p)
  }

  /** Only the kind and the methods matter, and one row counts after the other. */
  lemma RowsSayMore(rows: seq<Row>, row: Row, p: Partitioning, q: Partitioning)
    requires rows == [] || (q.kind == p.kind && q.method_ == p.method_ && q.subMethod == p.subMethod)
    ensures RowsSay(rows + [row], p) == (RowsSay(rows, q) && RowSays(row, p))
  {
    hide MapMethod;
    var all := rows + [row];
    assert all[|rows|] == row;
    forall i | 0 <= i < |rows| ensures all[i] == rows[i] && RowSays(rows[i], p) == RowSays(rows[i], q) {
    }
    hide RowSays;
    if RowsSay(all, p) {
      forall i | 0 <= i < |rows| ensures RowSays(rows[i], q) {
        assert RowSays(all[i], p);
      }
    }
  }

  function TextOf(raw: Option<Bytes>): Bytes {
    if raw.Some? then raw.value else []
  }

  function OrdinalOf(raw: Option<Bytes>): nat {
    if raw.Some? && ParseOrdinal(raw.value).Some? then ParseOrdinal(raw.value).value else 0
  }

  /** The method a column names; empty when it names none. */
  function MethodOf(raw: Option<Bytes>): string {
    if raw.Some? && MapMethod(raw.value).Some? then MapMethod(raw.value).value else ""
  }

  /** The entry and the leaf a row can only describe. */
  function EntryOf(row: Row): Entry {
    Entry(TextOf(row.partitionName), OrdinalOf(row.partitionOrdinal), StatisticsOf(row))
  }

  function LeafOf(row: Row): Leaf {
    Leaf(TextOf(row.partitionName), OrdinalOf(row.partitionOrdinal),
         Entry(TextOf(row.subName), OrdinalOf(row.subOrdinal), StatisticsOf(row)))
  }

  lemma DescribedOnce(row: Row, e: Entry, leaf: Leaf)
    ensures DescribesEntry(row, e) ==> e == EntryOf(row)
    ensures Describes(row, leaf) ==> leaf == LeafOf(row)
  {
    hide ParseOrdinal, SaysOrdinal, SaysMethod, MapMethod;
    RowIsParsed(row);
  }

  predicate EntriesDescribed(rows: seq<Row>, entries: seq<Entry>) {
    |rows| == |entries| && forall i :: 0 <= i < |rows| ==> DescribesEntry(rows[i], entries[i])
  }

  predicate LeavesDescribed(rows: seq<Row>, leaves: seq<Leaf>) {
    |rows| == |leaves| && forall i :: 0 <= i < |rows| ==> Describes(rows[i], leaves[i])
  }

  /** What the loop keeps: the result so far, the names seen, the leaves counted and the bytes accounted for. */
  datatype Reading = Reading(p: Partitioning, names: set<Bytes>, subNames: set<Bytes>, bytes: int)

  const NOTHING := Reading(Partitioning(Unread, "", "", [], []), {}, {}, 15)

  /** After some rows: the service would accept the result, it says what the rows say, and its size is exact. */
  ghost predicate ReadsAs(names: Names, rows: seq<Row>, s: Reading, maximum: int) {
    && s.bytes == |PartitioningText(s.p)| <= maximum && RowsSay(rows, s.p)
    && match s.p.kind
       case Unread => rows == [] && s == NOTHING
       case Unpartitioned => |rows| == 1 && s.p == Partitioning(Unpartitioned, "", "", [], [])
       case Partitioned =>
         ValidPartitions(names, s.p) && s.names == Seen(Folds(names, s.p.partitions)) && EntriesDescribed(rows, s.p.partitions)
       case Subpartitioned =>
         && ValidGroups(names, s.p) && s.names == Seen(GroupFolds(names, s.p.groups))
         && s.subNames == Seen(LeafFolds(names, Leaves(s.p.groups))) && LeavesDescribed(rows, Leaves(s.p.groups))
  }

  /** The partition columns of a row, checked; makePartitionEntry. */
  method MakeEntry(names: Names, row: Row) returns (r: Option<(Entry, string)>)
    requires row.partitionName.Some? && row.partitionOrdinal.Some? && row.partitionMethod.Some?
    ensures r.Some? ==>
              && r.value.0 == EntryOf(row) && DescribesEntry(row, EntryOf(row)) && ValidName(names, r.value.0.name)
              && ValidStatistics(r.value.0.statistics) && r.value.1 == MethodOf(row.partitionMethod)
    ensures r == None ==>
              || !DescribesEntry(row, EntryOf(row)) || !ValidName(names, EntryOf(row).name)
              || !ValidStatistics(EntryOf(row).statistics) || MethodOf(row.partitionMethod) == ""
  {
    hide ValidName, ValidStatistics, MapMethod, ParseOrdinal, SaysOrdinal, SaysMethod;
    RowIsParsed(row);
    if !ValidName(names, row.partitionName.value) {
      return None;
    }
    var ordinal := ParseOrdinal(row.partitionOrdinal.value);
    if ordinal == None {
      return None;
    }
    var m := MapMethod(row.partitionMethod.value);
    if m == None {
      return None;
    }
    if !ValidStatistics(StatisticsOf(row)) {
      return None;
    }
    r := Some((Entry(row.partitionName.value, ordinal.value, StatisticsOf(row)), m.value));
  }

  lemma EntryAppended(names: Names, rows: seq<Row>, entries: seq<Entry>, row: Row, e: Entry)
    requires EntriesValid(names, entries) && EntriesDescribed(rows, entries) && NoDuplicates(Folds(names, entries))
    requires DescribesEntry(row, e) && ValidName(names, e.name) && ValidStatistics(e.statistics)
    requires e.ordinal == |entries| + 1 && names.fold(e.name) !in Seen(Folds(names, entries))
    ensures EntriesValid(names, entries + [e]) && EntriesDescribed(rows + [row], entries + [e])
    ensures NoDuplicates(Folds(names, entries + [e]))
    ensures Seen(Folds(names, entries + [e])) == Seen(Folds(names, entries)) + {names.fold(e.name)}
  {
    hide ValidName, ValidStatistics, DescribesEntry, Folds, NoDuplicates, Seen;
    assert (entries + [e])[..|entries|] == entries;
    FoldsPrefix(names, entries + [e], |entries|);
    FoldsWhole(names, entries + [e]);
    DistinctEnd(Folds(names, entries), names.fold(e.name));
  }

  lemma PartitionSize(m: string, entries: seq<Entry>, e: Entry)
    ensures |PartitioningText(Partitioning(Partitioned, m, "", entries + [e], []))|
         == |PartitioningText(Partitioning(Partitioned, m, "", entries, []))| + (if entries == [] then 0 else 1) + |EntryText(e)|
  {
    hide *;
    PartitioningSizes(Partitioning(Partitioned, m, "", entries, []));
    PartitioningSizes(Partitioning(Partitioned, m, "", entries + [e], []));
    EntriesGrow(entries, e);
  }

  lemma PartitionAdded(names: Names, rows: seq<Row>, s: Reading, row: Row, e: Entry, m: string, bytes: int, maximum: int)
    requires ReadsAs(names, rows, s, maximum) && (s.p.kind == Partitioned || s == NOTHING)
    requires DescribesEntry(row, e) && ValidName(names, e.name) && ValidStatistics(e.statistics) && m in METHODS
    requires s.p.kind == Partitioned ==> s.p.method_ == m
    requires RowSays(row, Partitioning(Partitioned, m, "", [], []))
    requires e.ordinal == |s.p.partitions| + 1 <= MAX_LEAVES && names.fold(e.name) !in s.names
    requires bytes == (if s.p.kind == Partitioned then s.bytes else |PartitioningText(Partitioning(Partitioned, m, "", [], []))|)
                    + (if s.p.partitions == [] then 0 else 1) + |EntryText(e)| <= maximum
    ensures ReadsAs(names, rows + [row],
                    Reading(Partitioning(Partitioned, m, "", s.p.partitions + [e], []), s.names + {names.fold(e.name)},
                            s.subNames, bytes), maximum)
  {
    hide *;
    FoldsNone(names);
    PartitionedParts(names, rows, s, m, maximum);
    PartitionSize(m, s.p.partitions, e);
    EntryAppended(names, rows, s.p.partitions, row, e);
    SaysPartitioned(names, rows, s, row, e, m, maximum);
    PartitionedBy(names, rows + [row], s.p.partitions + [e], m, bytes, maximum, s.subNames);
  }

  lemma SaysPartitioned(names: Names, rows: seq<Row>, s: Reading, row: Row, e: Entry, m: string, maximum: int)
    requires ReadsAs(names, rows, s, maximum) && (s.p.kind == Partitioned || s == NOTHING)
    requires s.p.kind == Partitioned ==> s.p.method_ == m
    requires RowSays(row, Partitioning(Partitioned, m, "", [], []))
    ensures RowsSay(rows + [row], Partitioning(Partitioned, m, "", s.p.partitions + [e], []))
  {
    hide PartitioningText, EntriesValid, DescribesEntry, EntriesDescribed, Folds, NoDuplicates, Seen, MapMethod, RowsSay;
    RowsSayMore(rows, row, Partitioning(Partitioned, m, "", s.p.partitions + [e], []), s.p);
  }

  lemma PartitionedParts(names: Names, rows: seq<Row>, s: Reading, m: string, maximum: int)
    requires ReadsAs(names, rows, s, maximum) && (s.p.kind == Partitioned || s == NOTHING)
    requires s.p.kind == Partitioned ==> s.p.method_ == m
    ensures EntriesValid(names, s.p.partitions) && EntriesDescribed(rows, s.p.partitions) && NoDuplicates(Folds(names, s.p.partitions))
    ensures s.names == Seen(Folds(names, s.p.partitions))
    ensures s.p.kind == Partitioned ==>
              s.p == Partitioning(Partitioned, m, "", s.p.partitions, []) && s.bytes == |PartitioningText(s.p)|
    ensures s.p.kind != Partitioned ==> s.p.partitions == []
  {
    hide PartitioningText, ValidName, ValidStatistics, DescribesEntry, Folds, NoDuplicates, Seen;
    FoldsNone(names);
  }

  lemma PartitionedBy(
    names: Names, rows: seq<Row>, entries: seq<Entry>, m: string, bytes: int, maximum: int, subNames: set<Bytes>
  )
    requires EntriesValid(names, entries) && EntriesDescribed(rows, entries) && NoDuplicates(Folds(names, entries))
    requires m in METHODS && 1 <= |entries| <= MAX_LEAVES
    requires bytes == |PartitioningText(Partitioning(Partitioned, m, "", entries, []))| <= maximum
    requires RowsSay(rows, Partitioning(Partitioned, m, "", entries, []))
    ensures ReadsAs(names, rows, Reading(Partitioning(Partitioned, m, "", entries, []), Seen(Folds(names, entries)), subNames, bytes),
                    maximum)
  {
    hide PartitioningText, EntriesValid, EntriesDescribed, Folds, NoDuplicates, Seen, RowSays, RowsSay;
  }

  lemma FoldsNone(names: Names)
    ensures Folds(names, []) == [] && LeafFolds(names, []) == [] && GroupFolds(names, []) == [] && Leaves([]) == []
    ensures Seen([]) == {} && NoDuplicates<Bytes>([])
  {
  }

  lemma FoldsWhole(names: Names, entries: seq<Entry>)
    ensures entries[..|entries|] == entries
  {
  }

  /** Everything the reader demands of the next row of a table that has partitions only. */
  predicate PartitionFits(names: Names, s: Reading, row: Row, maximum: int) {
    var e, m := EntryOf(row), MethodOf(row.partitionMethod);
    && DescribesEntry(row, e) && ValidName(names, e.name) && ValidStatistics(e.statistics) && e.ordinal == |s.p.partitions| + 1
    && RowSays(row, Partitioning(Partitioned, m, "", [], [])) && m in METHODS && (s.p.method_ == "" || s.p.method_ == m)
    && names.fold(e.name) !in s.names
    && |PartitioningText(Partitioning(Partitioned, m, "", s.p.partitions + [e], []))| <= maximum
  }

  lemma PartitionFitsParts(names: Names, s: Reading, row: Row, maximum: int)
    ensures var e, m := EntryOf(row), MethodOf(row.partitionMethod);
            && m != "" ==> (m in METHODS)
    ensures var e, m := EntryOf(row), MethodOf(row.partitionMethod);
            PartitionFits(names, s, row, maximum) ==>
              && row.partitionName.Some? && row.partitionOrdinal.Some? && row.partitionMethod.Some?
              && row.subName == None && row.subOrdinal == None && row.subMethod == None
              && DescribesEntry(row, e) && ValidName(names, e.name) && ValidStatistics(e.statistics)
              && e.ordinal == |s.p.partitions| + 1 && m in METHODS && m != "" && (s.p.method_ == "" || s.p.method_ == m)
              && names.fold(e.name) !in s.names
              && |PartitioningText(Partitioning(Partitioned, m, "", s.p.partitions + [e], []))| <= maximum
    ensures row.partitionMethod.Some? && row.subName == None && row.subOrdinal == None && row.subMethod == None
            && MethodOf(row.partitionMethod) in METHODS ==>
              RowSays(row, Partitioning(Partitioned, MethodOf(row.partitionMethod), "", [], []))
  {
    hide ValidName, ValidStatistics, ParseOrdinal, PartitioningText;
  }

  /** A row of a table with partitions but without subpartitions. */
  method TakePartition(names: Names, ghost rows: seq<Row>, s: Reading, row: Row, maximum: int)
    returns (r: Result<Reading, ReadError>)
    requires ReadsAs(names, rows, s, maximum) && (s.p.kind == Partitioned || s == NOTHING) && |rows| < MAX_LEAVES
    ensures r.Success? ==> ReadsAs(names, rows + [row], r.value, maximum) && r.value.p.kind == Partitioned
    ensures r.Failure? ==> !PartitionFits(names, s, row, maximum)
  {
    hide *;
    PartitionState(names, rows, s, maximum);
    PartitionFitsParts(names, s, row, maximum);
    if row.partitionName == None || row.partitionOrdinal == None || row.partitionMethod == None
       || row.subName.Some? || row.subOrdinal.Some? || row.subMethod.Some? {
      return Failure(InvalidMetadata);
    }
    var made := MakeEntry(names, row);
    if made == None {
      return Failure(InvalidMetadata);
    }
    var e, m := made.value.0, made.value.1;
    var key := names.fold(e.name);
    if m !in METHODS || (s.p.method_ != "" && s.p.method_ != m) || e.ordinal != |s.p.partitions| + 1 || key in s.names {
      return Failure(InvalidMetadata);
    }
    PartitionedParts(names, rows, s, m, maximum);
    PartitionSize(m, s.p.partitions, e);
    var bytes := s.bytes;
    if |s.p.partitions| == 0 {
      var empty := Partitioning(Partitioned, m, "", [], []);
      NothingMeasurable(m, m);
      var size := PartitioningSize(empty, maximum);
      WithinParts(|PartitioningText(empty)|, maximum);
      if size == None {
        return Failure(TooLarge);
      }
      bytes := size.value;
    }
    WithinParts(|EntryText(e)|, maximum - bytes);
    var entryBytes := EntrySize(e, maximum - bytes);
    if entryBytes == None {
      return Failure(TooLarge);
    }
    var increment := if |s.p.partitions| != 0 then entryBytes.value + 1 else entryBytes.value;
    AddedSize(bytes, increment, maximum);
    var added := AddEncodedSize(bytes, increment, maximum);
    if added == None {
      return Failure(TooLarge);
    }
    PartitionAdded(names, rows, s, row, e, m, added.value, maximum);
    r := Success(Reading(Partitioning(Partitioned, m, "", s.p.partitions + [e], []), s.names + {key}, s.subNames, added.value));
  }

  lemma PartitionState(names: Names, rows: seq<Row>, s: Reading, maximum: int)
    requires ReadsAs(names, rows, s, maximum) && (s.p.kind == Partitioned || s == NOTHING)
    ensures |s.p.partitions| == |rows|
    ensures s.p.kind == Partitioned ==> s.p.method_ in METHODS && s.p.method_ != "" && s.p.partitions != []
    ensures s.p.kind != Partitioned ==> s == NOTHING && s.p.method_ == "" && s.p.partitions == [] && s.names == {}
  {
    hide EntriesValid, Folds, NoDuplicates, PartitioningText, DescribesEntry, Seen;
  }

  lemma NothingMeasurable(m: string, sub: string)
    ensures m in METHODS ==> Measurable(Partitioning(Partitioned, m, "", [], []))
    ensures m in METHODS && sub in METHODS ==> Measurable(Partitioning(Subpartitioned, m, sub, [], []))
    ensures PARENT_METHODS <= METHODS && SUB_METHODS <= METHODS
  {
  }

  // ------------------------------------------------------------ subpartitions

  /** The groups after one more subpartition, in a new group or in the last one. */
  function Extended(groups: seq<Group>, newGroup: bool, name: Bytes, ordinal: nat, e: Entry): seq<Group> {
    if newGroup || groups == [] then groups + [Group(name, ordinal, [e])]
    else
      var last := groups[|groups| - 1];
      groups[..|groups| - 1] + [Group(last.name, last.ordinal, last.subpartitions + [e])]
  }

  /** The new subpartition belongs to the last group, or starts the next one. */
  predicate Continues(names: Names, groups: seq<Group>, newGroup: bool, name: Bytes, ordinal: nat, e: Entry) {
    && ValidName(names, name) && ValidName(names, e.name) && ValidStatistics(e.statistics)
    && (if newGroup then
          ordinal == |groups| + 1 && e.ordinal == 1 && names.fold(name) !in Seen(GroupFolds(names, groups))
        else
          groups != [] && name == groups[|groups| - 1].name && ordinal == groups[|groups| - 1].ordinal
          && e.ordinal == |groups[|groups| - 1].subpartitions| + 1)
  }

  lemma ExtendedLeaves(names: Names, groups: seq<Group>, newGroup: bool, name: Bytes, ordinal: nat, e: Entry)
    requires Continues(names, groups, newGroup, name, ordinal, e)
    ensures Leaves(Extended(groups, newGroup, name, ordinal, e)) == Leaves(groups) + [Leaf(name, ordinal, e)]
  {
    if newGroup || groups == [] {
      GroupsEnd(names, groups, Group(name, ordinal, [e]));
      assert LeavesOf(Group(name, ordinal, [e])) == [Leaf(name, ordinal, e)];
    } else {
      var last := groups[|groups| - 1];
      var grown := Group(last.name, last.ordinal, last.subpartitions + [e]);
      GroupsEnd(names, groups[..|groups| - 1], grown);
      assert LeavesOf(grown) == LeavesOf(last) + [Leaf(name, ordinal, e)];
      hide LeavesOf;
      assert Leaves(groups) == Leaves(groups[..|groups| - 1]) + LeavesOf(last);
    }
  }

  lemma ExtendedFolds(names: Names, groups: seq<Group>, newGroup: bool, name: Bytes, ordinal: nat, e: Entry)
    requires Continues(names, groups, newGroup, name, ordinal, e)
    ensures GroupFolds(names, Extended(groups, newGroup, name, ordinal, e))
         == if newGroup then GroupFolds(names, groups) + [names.fold(name)] else GroupFolds(names, groups)
  {
    hide ValidName, ValidStatistics, Seen;
    if newGroup {
      GroupsEnd(names, groups, Group(name, ordinal, [e]));
    } else {
      var last := groups[|groups| - 1];
      GroupsEnd(names, groups[..|groups| - 1], Group(last.name, last.ordinal, last.subpartitions + [e]));
    }
  }

  lemma ExtendedValid(names: Names, groups: seq<Group>, newGroup: bool, name: Bytes, ordinal: nat, e: Entry)
    requires Continues(names, groups, newGroup, name, ordinal, e) && GroupsValid(names, groups)
    ensures GroupsValid(names, Extended(groups, newGroup, name, ordinal, e))
  {
    hide ValidName, ValidStatistics, Seen;
    var next := Extended(groups, newGroup, name, ordinal, e);
    if !newGroup {
      var last := groups[|groups| - 1];
      assert EntriesValid(names, last.subpartitions);
      assert EntriesValid(names, last.subpartitions + [e]);
      assert next[|groups| - 1] == Group(last.name, last.ordinal, last.subpartitions + [e]);
      forall i | 0 <= i < |groups| - 1 ensures next[i] == groups[i] {
      }
    } else {
      forall i | 0 <= i < |groups| ensures next[i] == groups[i] {
      }
      assert EntriesValid(names, [e]);
    }
  }

  /** The bytes one more subpartition adds: its group's shell and separator when it starts one, then the entry. */
  lemma ExtendedSize(names: Names, groups: seq<Group>, newGroup: bool, name: Bytes, ordinal: nat, e: Entry)
    requires Continues(names, groups, newGroup, name, ordinal, e)
    requires !newGroup ==> groups[|groups| - 1].subpartitions != []
    ensures |GroupsText(Extended(groups, newGroup, name, ordinal, e))|
         == |GroupsText(groups)| + |EntryText(e)|
            + (if newGroup then (if groups == [] then 0 else 1) + |GroupText(Group(name, ordinal, []))| else 1)
  {
    hide ValidName, ValidStatistics, Seen, GroupText, EntryText, GroupsText, EntriesText;
    if newGroup {
      var g := Group(name, ordinal, [e]);
      GroupsGrow(groups, g);
      GroupSizes(g);
      GroupSizes(Group(name, ordinal, []));
      EntriesGrow([], e);
      assert [] + [e] == [e];
    } else {
      var init, last := groups[..|groups| - 1], groups[|groups| - 1];
      var grown := Group(last.name, last.ordinal, last.subpartitions + [e]);
      assert groups == init + [last];
      GroupsGrow(init, last);
      GroupsGrow(init, grown);
      GroupSizes(last);
      GroupSizes(grown);
      EntriesGrow(last.subpartitions, e);
    }
  }

  lemma LeafAppended(names: Names, rows: seq<Row>, leaves: seq<Leaf>, row: Row, leaf: Leaf)
    requires LeavesDescribed(rows, leaves) && Describes(row, leaf) && NoDuplicates(LeafFolds(names, leaves))
    requires names.fold(leaf.entry.name) !in Seen(LeafFolds(names, leaves))
    ensures LeavesDescribed(rows + [row], leaves + [leaf]) && NoDuplicates(LeafFolds(names, leaves + [leaf]))
    ensures Seen(LeafFolds(names, leaves + [leaf])) == Seen(LeafFolds(names, leaves)) + {names.fold(leaf.entry.name)}
  {
    hide Describes, LeafFolds, NoDuplicates, Seen;
    LeafFoldsEnd(names, leaves, leaf);
    DistinctEnd(LeafFolds(names, leaves), names.fold(leaf.entry.name));
  }

  /** The state as the subpartitioned branch sees it. */
  ghost predicate GroupState(names: Names, rows: seq<Row>, s: Reading) {
    var groups := s.p.groups;
    && GroupsValid(names, groups) && NoDuplicates(GroupFolds(names, groups)) && s.names == Seen(GroupFolds(names, groups))
    && NoDuplicates(LeafFolds(names, Leaves(groups))) && s.subNames == Seen(LeafFolds(names, Leaves(groups)))
    && LeavesDescribed(rows, Leaves(groups))
  }

  lemma GroupStateOf(names: Names, rows: seq<Row>, s: Reading, maximum: int)
    requires ReadsAs(names, rows, s, maximum) && (s.p.kind == Subpartitioned || s == NOTHING)
    ensures GroupState(names, rows, s)
    ensures s.p.kind == Subpartitioned ==>
              && s.p == Partitioning(Subpartitioned, s.p.method_, s.p.subMethod, [], s.p.groups) && s.p.groups != []
              && s.bytes == |PartitioningText(s.p)| && s.p.method_ in PARENT_METHODS && s.p.subMethod in SUB_METHODS
              && s.p.method_ != "" && s.p.subMethod != ""
    ensures s.p.kind != Subpartitioned ==> s == NOTHING && s.p.groups == [] && s.p.method_ == "" && s.p.subMethod == ""
  {
    hide PartitioningText, GroupsValid, Describes, GroupFolds, LeafFolds, Leaves, NoDuplicates, Seen;
    NothingGroups(names);
  }

  lemma NothingGroups(names: Names)
    ensures GroupState(names, [], NOTHING)
  {
    FoldsNone(names);
  }

  lemma LastGroup(names: Names, groups: seq<Group>)
    requires GroupsValid(names, groups) && groups != []
    ensures groups[|groups| - 1].subpartitions != []
  {
    hide ValidName, EntriesValid;
  }

  lemma SubpartitionSize(names: Names, m: string, sub: string, groups: seq<Group>, newGroup: bool, name: Bytes, ordinal: nat, e: Entry)
    requires Continues(names, groups, newGroup, name, ordinal, e)
    requires !newGroup ==> groups[|groups| - 1].subpartitions != []
    ensures |PartitioningText(Partitioning(Subpartitioned, m, sub, [], Extended(groups, newGroup, name, ordinal, e)))|
         == |PartitioningText(Partitioning(Subpartitioned, m, sub, [], groups))| + |EntryText(e)|
            + (if newGroup then (if groups == [] then 0 else 1) + |GroupText(Group(name, ordinal, []))| else 1)
  {
    hide *;
    PartitioningSizes(Partitioning(Subpartitioned, m, sub, [], groups));
    PartitioningSizes(Partitioning(Subpartitioned, m, sub, [], Extended(groups, newGroup, name, ordinal, e)));
    ExtendedSize(names, groups, newGroup, name, ordinal, e);
  }

  lemma SubpartitionAdded(
    names: Names, rows: seq<Row>, s: Reading, row: Row, m: string, sub: string, newGroup: bool, leaf: Leaf, bytes: int, maximum: int
  )
    requires GroupState(names, rows, s) && Describes(row, leaf) && |rows| < MAX_LEAVES
    requires Continues(names, s.p.groups, newGroup, leaf.group, leaf.ordinal, leaf.entry)
    requires names.fold(leaf.entry.name) !in s.subNames && m in PARENT_METHODS && sub in SUB_METHODS
    requires var next := Extended(s.p.groups, newGroup, leaf.group, leaf.ordinal, leaf.entry);
             && bytes == |PartitioningText(Partitioning(Subpartitioned, m, sub, [], next))| <= maximum
             && RowsSay(rows + [row], Partitioning(Subpartitioned, m, sub, [], next))
    ensures ReadsAs(names, rows + [row],
                    Reading(Partitioning(Subpartitioned, m, sub, [],
                                         Extended(s.p.groups, newGroup, leaf.group, leaf.ordinal, leaf.entry)),
                            if newGroup then s.names + {names.fold(leaf.group)} else s.names,
                            s.subNames + {names.fold(leaf.entry.name)}, bytes), maximum)
  {
    hide *;
    var groups := s.p.groups;
    var next := Extended(groups, newGroup, leaf.group, leaf.ordinal, leaf.entry);
    StateParts(names, rows, s);
    ContinuesParts(names, groups, newGroup, leaf.group, leaf.ordinal, leaf.entry);
    ExtendedLeaves(names, groups, newGroup, leaf.group, leaf.ordinal, leaf.entry);
    ExtendedFolds(names, groups, newGroup, leaf.group, leaf.ordinal, leaf.entry);
    ExtendedValid(names, groups, newGroup, leaf.group, leaf.ordinal, leaf.entry);
    LeafAppended(names, rows, Leaves(groups), row, leaf);
    LeavesCounted(rows, Leaves(groups));
    DistinctEnd(GroupFolds(names, groups), names.fold(leaf.group));
    SubpartitionedBy(names, rows + [row], next, m, sub, bytes, maximum);
  }

  lemma StateParts(names: Names, rows: seq<Row>, s: Reading)
    requires GroupState(names, rows, s)
    ensures var groups := s.p.groups;
            && GroupsValid(names, groups) && NoDuplicates(GroupFolds(names, groups)) && s.names == Seen(GroupFolds(names, groups))
            && NoDuplicates(LeafFolds(names, Leaves(groups))) && s.subNames == Seen(LeafFolds(names, Leaves(groups)))
            && LeavesDescribed(rows, Leaves(groups))
  {
    hide GroupsValid, GroupFolds, LeafFolds, Leaves, NoDuplicates, Seen, LeavesDescribed;
  }

  lemma ContinuesParts(names: Names, groups: seq<Group>, newGroup: bool, name: Bytes, ordinal: nat, e: Entry)
    requires Continues(names, groups, newGroup, name, ordinal, e)
    ensures newGroup ==> names.fold(name) !in Seen(GroupFolds(names, groups))
    ensures Extended(groups, newGroup, name, ordinal, e) != []
    ensures |Extended(groups, newGroup, name, ordinal, e)| >= 1
  {
    hide ValidName, ValidStatistics, Seen, GroupFolds;
  }

  lemma LeavesCounted(rows: seq<Row>, leaves: seq<Leaf>)
    requires LeavesDescribed(rows, leaves)
    ensures |rows| == |leaves|
  {
    hide Describes;
  }

  lemma SubpartitionedBy(names: Names, rows: seq<Row>, groups: seq<Group>, m: string, sub: string, bytes: int, maximum: int)
    requires groups != [] && GroupsValid(names, groups) && NoDuplicates(GroupFolds(names, groups))
    requires NoDuplicates(LeafFolds(names, Leaves(groups))) && |Leaves(groups)| <= MAX_LEAVES && LeavesDescribed(rows, Leaves(groups))
    requires m in PARENT_METHODS && sub in SUB_METHODS
    requires bytes == |PartitioningText(Partitioning(Subpartitioned, m, sub, [], groups))| <= maximum
    requires RowsSay(rows, Partitioning(Subpartitioned, m, sub, [], groups))
    ensures ReadsAs(names, rows, Reading(Partitioning(Subpartitioned, m, sub, [], groups), Seen(GroupFolds(names, groups)),
                                         Seen(LeafFolds(names, Leaves(groups))), bytes), maximum)
  {
    hide PartitioningText, GroupsValid, GroupFolds, LeafFolds, Leaves, NoDuplicates, Seen, LeavesDescribed, RowSays, RowsSay;
  }

  /** The checked columns of a row with a subpartition. */
  method MakeLeaf(names: Names, row: Row) returns (r: Option<(Leaf, string, string)>)
    requires row.partitionName.Some? && row.partitionOrdinal.Some? && row.partitionMethod.Some?
    requires row.subName.Some? && row.subOrdinal.Some? && row.subMethod.Some?
    ensures r.Some? ==> r.value == (LeafOf(row), MethodOf(row.partitionMethod), MethodOf(row.subMethod))
    ensures r.Some? == LeafColumns(names, row)
  {
    hide ValidName, ValidStatistics, MapMethod, ParseOrdinal, SaysOrdinal, SaysMethod;
    RowIsParsed(row);
    if !ValidName(names, row.partitionName.value) {
      return None;
    }
    var ordinal := ParseOrdinal(row.partitionOrdinal.value);
    if ordinal == None {
      return None;
    }
    var m, sub := MapMethod(row.partitionMethod.value), MapMethod(row.subMethod.value);
    if m == None || m.value !in PARENT_METHODS || sub == None || sub.value !in SUB_METHODS {
      return None;
    }
    var subOrdinal := ParseOrdinal(row.subOrdinal.value);
    if !ValidName(names, row.subName.value) || subOrdinal == None || !ValidStatistics(StatisticsOf(row)) {
      return None;
    }
    r := Some((Leaf(row.partitionName.value, ordinal.value, Entry(row.subName.value, subOrdinal.value, StatisticsOf(row))),
               m.value, sub.value));
  }

  /** The row's columns are all present and well-formed. */
  predicate LeafColumns(names: Names, row: Row) {
    var leaf := LeafOf(row);
    && Describes(row, leaf) && ValidName(names, leaf.group) && ValidName(names, leaf.entry.name)
    && ValidStatistics(leaf.entry.statistics)
    && MethodOf(row.partitionMethod) in PARENT_METHODS && MethodOf(row.subMethod) in SUB_METHODS
  }

  /** The row starts a group unless it has the last group's ordinal. */
  predicate StartsGroup(groups: seq<Group>, ordinal: nat) {
    groups == [] || groups[|groups| - 1].ordinal != ordinal
  }

  /** Everything the reader demands of the next row of a table that has subpartitions. */
  predicate LeafFits(names: Names, s: Reading, row: Row, maximum: int) {
    var leaf, m, sub := LeafOf(row), MethodOf(row.partitionMethod), MethodOf(row.subMethod);
    var newGroup := StartsGroup(s.p.groups, leaf.ordinal);
    && LeafColumns(names, row)
    && (s.p.method_ == "" || s.p.method_ == m) && (s.p.subMethod == "" || s.p.subMethod == sub)
    && Continues(names, s.p.groups, newGroup, leaf.group, leaf.ordinal, leaf.entry)
    && names.fold(leaf.entry.name) !in s.subNames
    && var next := Extended(s.p.groups, newGroup, leaf.group, leaf.ordinal, leaf.entry);
       |PartitioningText(Partitioning(Subpartitioned, m, sub, [], next))| <= maximum
  }

  lemma LeafFitsParts(names: Names, s: Reading, row: Row, maximum: int)
    ensures var leaf, m, sub := LeafOf(row), MethodOf(row.partitionMethod), MethodOf(row.subMethod);
            var groups := s.p.groups;
            var newGroup := |groups| == 0 || groups[|groups| - 1].ordinal != leaf.ordinal;
            LeafFits(names, s, row, maximum) ==>
              && LeafColumns(names, row)
              && (s.p.method_ == "" || s.p.method_ == m) && (s.p.subMethod == "" || s.p.subMethod == sub)
              && (if newGroup then
                    leaf.ordinal == |groups| + 1 && leaf.entry.ordinal == 1 && names.fold(leaf.group) !in Seen(GroupFolds(names, groups))
                  else
                    groups[|groups| - 1].name == leaf.group && leaf.entry.ordinal == |groups[|groups| - 1].subpartitions| + 1)
              && names.fold(leaf.entry.name) !in s.subNames
              && var next := Extended(groups, newGroup, leaf.group, leaf.ordinal, leaf.entry);
                 |PartitioningText(Partitioning(Subpartitioned, m, sub, [], next))| <= maximum
  {
    hide ValidName, ValidStatistics, LeafColumns, PartitioningText, Extended, Seen, GroupFolds;
  }

  lemma LeafColumnsParts(names: Names, row: Row)
    ensures LeafColumns(names, row) ==>
              && row.partitionName.Some? && row.partitionOrdinal.Some? && row.partitionMethod.Some?
              && row.subName.Some? && row.subOrdinal.Some? && row.subMethod.Some?
              && var leaf, m, sub := LeafOf(row), MethodOf(row.partitionMethod), MethodOf(row.subMethod);
                 && Describes(row, leaf) && ValidName(names, leaf.group) && ValidName(names, leaf.entry.name)
                 && ValidStatistics(leaf.entry.statistics) && m in PARENT_METHODS && sub in SUB_METHODS
                 && RowSays(row, Partitioning(Subpartitioned, m, sub, [], []))
  {
    hide ValidName, ValidStatistics, ParseOrdinal, SaysOrdinal, SaysMethod, MapMethod;
    RowIsParsed(row);
  }

  lemma SaysSubpartitioned(
    names: Names, rows: seq<Row>, s: Reading, row: Row, m: string, sub: string, groups: seq<Group>, maximum: int
  )
    requires ReadsAs(names, rows, s, maximum) && (s.p.kind == Subpartitioned || s == NOTHING)
    requires s.p.kind == Subpartitioned ==> s.p.method_ == m && s.p.subMethod == sub
    requires RowSays(row, Partitioning(Subpartitioned, m, sub, [], []))
    ensures RowsSay(rows + [row], Partitioning(Subpartitioned, m, sub, [], groups))
  {
    hide PartitioningText, GroupsValid, LeavesDescribed, GroupFolds, LeafFolds, Leaves, NoDuplicates, Seen, MapMethod, RowsSay;
    RowsSayMore(rows, row, Partitioning(Subpartitioned, m, sub, [], groups), s.p);
  }

  lemma LeafContinues(names: Names, groups: seq<Group>, newGroup: bool, leaf: Leaf)
    requires ValidName(names, leaf.group) && ValidName(names, leaf.entry.name) && ValidStatistics(leaf.entry.statistics)
    requires if newGroup then
               leaf.ordinal == |groups| + 1 && leaf.entry.ordinal == 1 && names.fold(leaf.group) !in Seen(GroupFolds(names, groups))
             else
               groups != [] && leaf.group == groups[|groups| - 1].name && leaf.ordinal == groups[|groups| - 1].ordinal
               && leaf.entry.ordinal == |groups[|groups| - 1].subpartitions| + 1
    ensures Continues(names, groups, newGroup, leaf.group, leaf.ordinal, leaf.entry)
  {
    hide ValidName, ValidStatistics, Seen, GroupFolds;
  }

  lemma ShellMeasurable(name: Bytes, ordinal: nat)
    ensures StatisticsValid(Group(name, ordinal, []).subpartitions)
  {
  }

  /** A row of a table with subpartitions. */
  method TakeSubpartition(names: Names, ghost rows: seq<Row>, s: Reading, row: Row, maximum: int)
    returns (r: Result<Reading, ReadError>)
    requires ReadsAs(names, rows, s, maximum) && (s.p.kind == Subpartitioned || s == NOTHING) && |rows| < MAX_LEAVES
    ensures r.Success? ==> ReadsAs(names, rows + [row], r.value, maximum) && r.value.p.kind == Subpartitioned
    ensures r.Failure? ==> !LeafFits(names, s, row, maximum)
  {
    hide *;
    LeafFitsParts(names, s, row, maximum);
    LeafColumnsParts(names, row);
    GroupStateOf(names, rows, s, maximum);
    StateParts(names, rows, s);
    if row.partitionName == None || row.partitionOrdinal == None || row.partitionMethod == None
       || row.subName == None || row.subOrdinal == None || row.subMethod == None {
      return Failure(InvalidMetadata);
    }
    var made := MakeLeaf(names, row);
    if made == None {
      return Failure(InvalidMetadata);
    }
    var leaf, m, sub := made.value.0, made.value.1, made.value.2;
    if (s.p.method_ != "" && s.p.method_ != m) || (s.p.subMethod != "" && s.p.subMethod != sub) {
      return Failure(InvalidMetadata);
    }
    var groups := s.p.groups;
    var newGroup := |groups| == 0 || groups[|groups| - 1].ordinal != leaf.ordinal;
    var count := 0;
    if newGroup {
      if leaf.ordinal != |groups| + 1 || names.fold(leaf.group) in s.names {
        return Failure(InvalidMetadata);
      }
    } else {
      if groups[|groups| - 1].name != leaf.group {
        return Failure(InvalidMetadata);
      }
      count := |groups[|groups| - 1].subpartitions|;
    }
    if names.fold(leaf.entry.name) in s.subNames || leaf.entry.ordinal != count + 1 {
      return Failure(InvalidMetadata);
    }
    LeafContinues(names, groups, newGroup, leaf);
    if !newGroup {
      LastGroup(names, groups);
    }
    SubpartitionSize(names, m, sub, groups, newGroup, leaf.group, leaf.ordinal, leaf.entry);
    var bytes := MeasureSubpartition(s, m, sub, newGroup, leaf, maximum);
    if bytes == None {
      return Failure(TooLarge);
    }
    SaysSubpartitioned(names, rows, s, row, m, sub, Extended(groups, newGroup, leaf.group, leaf.ordinal, leaf.entry), maximum);
    SubpartitionAdded(names, rows, s, row, m, sub, newGroup, leaf, bytes.value, maximum);
    ExtendedParts(groups, newGroup, leaf.group, leaf.ordinal, leaf.entry);
    var grown: seq<Group>;
    if newGroup {
      grown := groups + [Group(leaf.group, leaf.ordinal, [leaf.entry])];
    } else {
      var last := groups[|groups| - 1];
      grown := groups[..|groups| - 1] + [Group(last.name, last.ordinal, last.subpartitions + [leaf.entry])];
    }
    r := Success(Reading(Partitioning(Subpartitioned, m, sub, [], grown),
                         if newGroup then s.names + {names.fold(leaf.group)} else s.names,
                         s.subNames + {names.fold(leaf.entry.name)}, bytes.value));
  }

  lemma ExtendedParts(groups: seq<Group>, newGroup: bool, name: Bytes, ordinal: nat, e: Entry)
    ensures newGroup ==> Extended(groups, newGroup, name, ordinal, e) == groups + [Group(name, ordinal, [e])]
    ensures !newGroup && groups != [] ==>
              Extended(groups, newGroup, name, ordinal, e)
              == (var last := groups[|groups| - 1];
                  groups[..|groups| - 1] + [Group(last.name, last.ordinal, last.subpartitions + [e])])
  {
  }

  /** The accounting of one more subpartition. */
  method MeasureSubpartition(s: Reading, m: string, sub: string, newGroup: bool, leaf: Leaf, maximum: int)
    returns (bytes: Option<int>)
    requires ValidStatistics(leaf.entry.statistics) && m in PARENT_METHODS && sub in SUB_METHODS
    requires s.p.groups != [] ==>
               s.p == Partitioning(Subpartitioned, m, sub, [], s.p.groups) && s.bytes == |PartitioningText(s.p)|
    requires !newGroup ==> s.p.groups != [] && s.p.groups[|s.p.groups| - 1].subpartitions != []
    ensures var grown := |PartitioningText(Partitioning(Subpartitioned, m, sub, [], s.p.groups))| + |EntryText(leaf.entry)|
                         + (if newGroup then (if s.p.groups == [] then 0 else 1) + |GroupText(Group(leaf.group, leaf.ordinal, []))| else 1);
            bytes == if grown <= maximum then Some(grown) else None
  {
    hide *;
    var total := s.bytes;
    if |s.p.groups| == 0 {
      var empty := Partitioning(Subpartitioned, m, sub, [], []);
      NothingMeasurable(m, sub);
      WithinParts(|PartitioningText(empty)|, maximum);
      var size := PartitioningSize(empty, maximum);
      if size == None {
        return None;
      }
      total := size.value;
    }
    var increment := 0;
    if newGroup {
      var shell := Group(leaf.group, leaf.ordinal, []);
      ShellMeasurable(leaf.group, leaf.ordinal);
      WithinParts(|GroupText(shell)|, maximum - total);
      var shellBytes := GroupSize(shell, maximum - total);
      if shellBytes == None {
        return None;
      }
      increment := if |s.p.groups| != 0 then shellBytes.value + 1 else shellBytes.value;
    }
    WithinParts(|EntryText(leaf.entry)|, maximum - total - increment);
    var entryBytes := EntrySize(leaf.entry, maximum - total - increment);
    if entryBytes == None {
      return None;
    }
    var count := if newGroup then 0 else |s.p.groups[|s.p.groups| - 1].subpartitions|;
    increment := increment + (if count != 0 then entryBytes.value + 1 else entryBytes.value);
    AddedSize(total, increment, maximum);
    bytes := AddEncodedSize(total, increment, maximum);
  }

  // --------------------------------------------------------------------- loop

  lemma StartsUnread(names: Names, maximum: int)
    requires 15 <= maximum
    ensures ReadsAs(names, [], NOTHING, maximum)
  {
    hide PartitioningText;
    PartitioningSizes(NOTHING.p);
  }

  /** The single row of an unpartitioned table. */
  method TakeNone(names: Names, ghost rows: seq<Row>, s: Reading, row: Row, maximum: int) returns (r: Result<Reading, ReadError>)
    requires s == NOTHING && ReadsAs(names, rows, s, maximum)
    ensures r.Success? ==> ReadsAs(names, rows + [row], r.value, maximum) && r.value.p.kind == Unpartitioned
    ensures r.Failure? ==> !RowSays(row, Partitioning(Unpartitioned, "", "", [], []))
  {
    hide PartitioningText, ValidPartitions, ValidGroups;
    if row.partitionName.Some? || row.partitionOrdinal.Some? || row.partitionMethod.Some?
       || row.subName.Some? || row.subOrdinal.Some? || row.subMethod.Some? {
      return Failure(InvalidMetadata);
    }
    var p := Partitioning(Unpartitioned, "", "", [], []);
    PartitioningSizes(s.p);
    PartitioningSizes(p);
    r := Success(Reading(p, {}, {}, 15));
  }

  lemma RowsRead(names: Names, rows: seq<Row>, s: Reading, maximum: int)
    requires ReadsAs(names, rows, s, maximum)
    ensures s.p.kind == Unread ==> s == NOTHING && rows == []
    ensures rows == [] ==> s.p.kind == Unread
    ensures s.p.kind == Unpartitioned ==> |rows| == 1
  {
    hide EntriesValid, GroupsValid, EntriesDescribed, NoDuplicates, Folds, GroupFolds, LeafFolds, Seen, PartitioningText;
    if s.p.kind == Partitioned {
      assert |rows| == |s.p.partitions| by {
        hide DescribesEntry;
        EntriesCounted(rows, s.p.partitions);
      }
    }
    if s.p.kind == Subpartitioned {
      LeavesCounted(rows, Leaves(s.p.groups));
      SomeLeaf(names, s.p.groups);
    }
  }

  lemma EntriesCounted(rows: seq<Row>, entries: seq<Entry>)
    requires EntriesDescribed(rows, entries)
    ensures |rows| == |entries|
  {
    hide DescribesEntry;
  }

  lemma SomeLeaf(names: Names, groups: seq<Group>)
    requires GroupsValid(names, groups) && groups != []
    ensures Leaves(groups) != []
  {
    hide ValidName, EntriesValid;
    GroupsHaveLeaves(groups);
  }

  // ------------------------------------------------------------ specification

  /** The rows say what the result says, and the service accepts it. */
  ghost predicate Reads(names: Names, rows: seq<Row>, p: Partitioning) {
    && rows != [] && RowsSay(rows, p) && Verdict(names, p).Some?
    && match p.kind
       case Unread => false
       case Unpartitioned => |rows| == 1
       case Partitioned => EntriesDescribed(rows, p.partitions)
       case Subpartitioned => LeavesDescribed(rows, Leaves(p.groups))
  }

  ghost predicate Fitting(names: Names, rows: seq<Row>, p: Partitioning, maximum: int) {
    Reads(names, rows, p) && |PartitioningText(p)| <= maximum
  }

  /** The first row decides the kind and the methods. */
  lemma FirstRowDecides(names: Names, rows: seq<Row>, p: Partitioning)
    requires Reads(names, rows, p)
    ensures var row := rows[0];
            var m, sub := MethodOf(row.partitionMethod), MethodOf(row.subMethod);
            if row.partitionName == None then p == Partitioning(Unpartitioned, "", "", [], [])
            else if row.subName == None then p == Partitioning(Partitioned, m, "", p.partitions, [])
            else p == Partitioning(Subpartitioned, m, sub, [], p.groups)
  {
    hide ValidName, ValidStatistics, EntriesValid, GroupsValid, Folds, GroupFolds, LeafFolds, NoDuplicates, MapMethod, ParseOrdinal, Leaves,
         SaysOrdinal, SaysMethod;
    RowIsParsed(rows[0]);
    assert RowSays(rows[0], p);
  }

  lemma EntriesAre(rows: seq<Row>, entries: seq<Entry>)
    requires EntriesDescribed(rows, entries)
    ensures |entries| == |rows| && forall i :: 0 <= i < |rows| ==> entries[i] == EntryOf(rows[i])
  {
    forall i | 0 <= i < |rows| ensures entries[i] == EntryOf(rows[i]) {
      DescribedOnce(rows[i], entries[i], Leaf([], 0, entries[i]));
    }
  }

  lemma LeavesAre(rows: seq<Row>, leaves: seq<Leaf>)
    requires LeavesDescribed(rows, leaves)
    ensures |leaves| == |rows| && forall i :: 0 <= i < |rows| ==> leaves[i] == LeafOf(rows[i])
  {
    forall i | 0 <= i < |rows| ensures leaves[i] == LeafOf(rows[i]) {
      DescribedOnce(rows[i], leaves[i].entry, leaves[i]);
    }
  }

  lemma SameEntries(rows: seq<Row>, a: seq<Entry>, b: seq<Entry>)
    requires EntriesDescribed(rows, a) && EntriesDescribed(rows, b)
    ensures a == b
  {
    EntriesAre(rows, a);
    EntriesAre(rows, b);
  }

  lemma SameLeaves(rows: seq<Row>, a: seq<Leaf>, b: seq<Leaf>)
    requires LeavesDescribed(rows, a) && LeavesDescribed(rows, b)
    ensures a == b
  {
    LeavesAre(rows, a);
    LeavesAre(rows, b);
  }

  lemma LastLeaf(names: Names, groups: seq<Group>)
    requires GroupsValid(names, groups) && groups != []
    ensures var init, g := groups[..|groups| - 1], groups[|groups| - 1];
            && g.subpartitions != [] && GroupsValid(names, init) && Leaves(groups) == Leaves(init) + LeavesOf(g)
            && Leaves(groups) != [] && |LeavesOf(g)| == |g.subpartitions|
            && Leaves(groups)[|Leaves(groups)| - 1] == Leaf(g.name, g.ordinal, g.subpartitions[|g.subpartitions| - 1])
            && g.subpartitions[|g.subpartitions| - 1].ordinal == |g.subpartitions|
            && forall i :: 0 <= i < |g.subpartitions| ==> LeavesOf(g)[i].entry == g.subpartitions[i]
  {
    hide ValidName, ValidStatistics;
  }

  lemma SameSuffix<T>(a: seq<T>, x: seq<T>, b: seq<T>, y: seq<T>)
    requires a + x == b + y && |x| == |y|
    ensures a == b && x == y
  {
    assert |a| == |b|;
    assert a == (a + x)[..|a|] && b == (b + y)[..|b|];
    assert x == (a + x)[|a|..] && y == (b + y)[|b|..];
  }

  /** Valid groups are determined by their leaves. */
  lemma {:induction false} LeavesDetermine(names: Names, a: seq<Group>, b: seq<Group>)
    requires GroupsValid(names, a) && GroupsValid(names, b) && Leaves(a) == Leaves(b)
    ensures a == b
    decreases |a|
  {
    FoldsNone(names);
    if a == [] || b == [] {
      if a != [] {
        SomeLeaf(names, a);
      }
      if b != [] {
        SomeLeaf(names, b);
      }
    } else {
      hide *;
      LastLeaf(names, a);
      LastLeaf(names, b);
      var x, y := a[|a| - 1], b[|b| - 1];
      SameSuffix(Leaves(a[..|a| - 1]), LeavesOf(x), Leaves(b[..|b| - 1]), LeavesOf(y));
      assert x.subpartitions == y.subpartitions;
      LeavesDetermine(names, a[..|a| - 1], b[..|b| - 1]);
      LastTogether(a, b);
    }
  }

  lemma LastTogether(a: seq<Group>, b: seq<Group>)
    requires a != [] && b != [] && a[..|a| - 1] == b[..|b| - 1] && a[|a| - 1] == b[|b| - 1]
    ensures a == b
  {
    assert a == a[..|a| - 1] + [a[|a| - 1]];
    assert b == b[..|b| - 1] + [b[|b| - 1]];
  }

  lemma GroupsOf(names: Names, rows: seq<Row>, p: Partitioning)
    requires Reads(names, rows, p) && p.kind == Subpartitioned
    ensures GroupsValid(names, p.groups) && LeavesDescribed(rows, Leaves(p.groups)) && p.groups != []
    ensures NoDuplicates(GroupFolds(names, p.groups)) && NoDuplicates(LeafFolds(names, Leaves(p.groups)))
    ensures p.method_ in PARENT_METHODS && p.subMethod in SUB_METHODS && |Leaves(p.groups)| <= MAX_LEAVES
    ensures rows != [] && RowsSay(rows, p) && p == Partitioning(Subpartitioned, p.method_, p.subMethod, [], p.groups)
  {
    hide GroupsValid, LeavesDescribed, GroupFolds, LeafFolds, Leaves, NoDuplicates, RowsSay;
  }

  lemma PartitionsOf(names: Names, rows: seq<Row>, p: Partitioning)
    requires Reads(names, rows, p) && p.kind == Partitioned
    ensures EntriesValid(names, p.partitions) && EntriesDescribed(rows, p.partitions) && NoDuplicates(Folds(names, p.partitions))
    ensures p.method_ in METHODS && 1 <= |p.partitions| <= MAX_LEAVES
    ensures rows != [] && RowsSay(rows, p) && p == Partitioning(Partitioned, p.method_, "", p.partitions, [])
  {
    hide EntriesValid, EntriesDescribed, Folds, NoDuplicates, RowsSay;
  }

  /** The rows determine what they read as. */
  lemma ReadingIsUnique(names: Names, rows: seq<Row>, p: Partitioning, q: Partitioning)
    requires Reads(names, rows, p) && Reads(names, rows, q)
    ensures p == q
  {
    hide Reads;
    FirstRowDecides(names, rows, p);
    FirstRowDecides(names, rows, q);
    if p.kind == Partitioned {
      PartitionsOf(names, rows, p);
      PartitionsOf(names, rows, q);
      SameEntries(rows, p.partitions, q.partitions);
    } else if p.kind == Subpartitioned {
      GroupsOf(names, rows, p);
      GroupsOf(names, rows, q);
      SameLeaves(rows, Leaves(p.groups), Leaves(q.groups));
      LeavesDetermine(names, p.groups, q.groups);
    }
  }

  // ------------------------------------------------------- one row less

  lemma LastRow(rows: seq<Row>, row: Row)
    ensures (rows + [row])[..|rows|] == rows && (rows + [row])[|rows|] == row
  {
  }

  lemma EntriesWithoutLast(names: Names, rows: seq<Row>, row: Row, init: seq<Entry>, e: Entry)
    requires EntriesValid(names, init + [e]) && EntriesDescribed(rows + [row], init + [e])
    requires NoDuplicates(Folds(names, init + [e]))
    ensures EntriesValid(names, init) && EntriesDescribed(rows, init) && NoDuplicates(Folds(names, init))
    ensures e == EntryOf(row) && DescribesEntry(row, e) && ValidName(names, e.name) && ValidStatistics(e.statistics)
    ensures e.ordinal == |rows| + 1 == |init| + 1 && names.fold(e.name) !in Seen(Folds(names, init))
  {
    hide ValidName, ValidStatistics, DescribesEntry, Folds, NoDuplicates, Seen;
    var entries := init + [e];
    var n := |rows|;
    LastRow(rows, row);
    assert DescribesEntry((rows + [row])[n], entries[n]);
    DescribedOnce(row, e, Leaf([], 0, e));
    forall i | 0 <= i < n ensures DescribesEntry(rows[i], init[i]) && init[i] == entries[i] {
      assert DescribesEntry((rows + [row])[i], entries[i]);
    }
    FoldsOneMore(names, init, e);
    DistinctEnd(Folds(names, init), names.fold(e.name));
  }

  lemma FoldsOneMore(names: Names, init: seq<Entry>, e: Entry)
    ensures Folds(names, init + [e]) == Folds(names, init) + [names.fold(e.name)]
  {
    assert (init + [e])[..|init|] == init;
  }

  /** The groups without their last subpartition, which may have been a group of its own. */
  function Shrunk(groups: seq<Group>): seq<Group>
    requires groups != [] && groups[|groups| - 1].subpartitions != []
  {
    var init, g := groups[..|groups| - 1], groups[|groups| - 1];
    if |g.subpartitions| == 1 then init
    else init + [Group(g.name, g.ordinal, g.subpartitions[..|g.subpartitions| - 1])]
  }

  /** The last leaf continues what is left of the groups without it. */
  lemma ShrunkContinues(names: Names, groups: seq<Group>)
    requires groups != [] && GroupsValid(names, groups) && NoDuplicates(GroupFolds(names, groups))
    ensures groups[|groups| - 1].subpartitions != []
    ensures var rest, g := Shrunk(groups), groups[|groups| - 1];
            var e := g.subpartitions[|g.subpartitions| - 1];
            var newGroup := StartsGroup(rest, g.ordinal);
            && GroupsValid(names, rest) && NoDuplicates(GroupFolds(names, rest))
            && Continues(names, rest, newGroup, g.name, g.ordinal, e) && Extended(rest, newGroup, g.name, g.ordinal, e) == groups
            && (!newGroup ==> rest[|rest| - 1].subpartitions != [])
  {
    hide ValidName, ValidStatistics, Seen, GroupFolds, NoDuplicates;
    var init, g := groups[..|groups| - 1], groups[|groups| - 1];
    var n := |g.subpartitions|;
    var e := g.subpartitions[n - 1];
    assert groups == init + [g];
    GroupsEnd(names, init, g);
    DistinctEnd(GroupFolds(names, init), names.fold(g.name));
    assert ValidStatistics(e.statistics) && ValidName(names, e.name) && e.ordinal == n;
    if n == 1 {
      assert g.subpartitions == [e];
      assert init != [] ==> init[|init| - 1].ordinal == |init|;
    } else {
      var less := Group(g.name, g.ordinal, g.subpartitions[..n - 1]);
      GroupsEnd(names, init, less);
      assert g.subpartitions == less.subpartitions + [e];
      assert EntriesValid(names, less.subpartitions);
      assert (init + [less])[..|init|] == init;
    }
  }

  lemma LeavesWithoutLast(names: Names, rows: seq<Row>, row: Row, leaves: seq<Leaf>, leaf: Leaf)
    requires LeavesDescribed(rows + [row], leaves + [leaf]) && NoDuplicates(LeafFolds(names, leaves + [leaf]))
    ensures LeavesDescribed(rows, leaves) && Describes(row, leaf) && leaf == LeafOf(row)
    ensures NoDuplicates(LeafFolds(names, leaves)) && names.fold(leaf.entry.name) !in Seen(LeafFolds(names, leaves))
  {
    hide Describes, LeafFolds, NoDuplicates, Seen;
    var n := |rows|;
    LastRow(rows, row);
    assert Describes((rows + [row])[n], (leaves + [leaf])[n]);
    DescribedOnce(row, leaf.entry, leaf);
    forall i | 0 <= i < n ensures Describes(rows[i], leaves[i]) {
      assert Describes((rows + [row])[i], (leaves + [leaf])[i]);
    }
    LeafFoldsEnd(names, leaves, leaf);
    DistinctEnd(LeafFolds(names, leaves), names.fold(leaf.entry.name));
  }

  /** Taking the last leaf away, in one step. */
  lemma GroupsWithoutLast(names: Names, rows: seq<Row>, row: Row, p: Partitioning)
    requires Reads(names, rows + [row], p) && p.kind == Subpartitioned
    ensures p.groups != [] && p.groups[|p.groups| - 1].subpartitions != []
    ensures var rest, leaf := Shrunk(p.groups), LeafOf(row);
            var newGroup := StartsGroup(rest, leaf.ordinal);
            && GroupsValid(names, rest) && NoDuplicates(GroupFolds(names, rest))
            && LeavesDescribed(rows, Leaves(rest)) && NoDuplicates(LeafFolds(names, Leaves(rest)))
            && Continues(names, rest, newGroup, leaf.group, leaf.ordinal, leaf.entry)
            && Extended(rest, newGroup, leaf.group, leaf.ordinal, leaf.entry) == p.groups
            && Describes(row, leaf) && names.fold(leaf.entry.name) !in Seen(LeafFolds(names, Leaves(rest)))
            && (!newGroup ==> rest[|rest| - 1].subpartitions != [])
            && |Leaves(p.groups)| == |Leaves(rest)| + 1
  {
    hide *;
    GroupsOf(names, rows + [row], p);
    ShrunkContinues(names, p.groups);
    var rest, g := Shrunk(p.groups), p.groups[|p.groups| - 1];
    var e := g.subpartitions[|g.subpartitions| - 1];
    ExtendedLeaves(names, rest, StartsGroup(rest, g.ordinal), g.name, g.ordinal, e);
    LeavesWithoutLast(names, rows, row, Leaves(rest), Leaf(g.name, g.ordinal, e));
  }

  /** What more rows read as contains what fewer rows read as, in fewer bytes. */
  lemma OneRowLess(names: Names, rows: seq<Row>, row: Row, p: Partitioning) returns (q: Partitioning)
    requires Reads(names, rows + [row], p) && rows != []
    ensures Reads(names, rows, q) && |PartitioningText(q)| <= |PartitioningText(p)|
  {
    hide *;
    FirstRowKept(names, rows, row, p);
    if p.kind == Partitioned {
      PartitionsOf(names, rows + [row], p);
      var init, e := p.partitions[..|p.partitions| - 1], p.partitions[|p.partitions| - 1];
      assert p.partitions == init + [e];
      EntriesWithoutLast(names, rows, row, init, e);
      q := Partitioning(Partitioned, p.method_, "", init, []);
      PartitionSize(p.method_, init, e);
      RowsSayMore(rows, row, p, q);
      ReadsPartitions(names, rows, q);
    } else {
      GroupsOf(names, rows + [row], p);
      GroupsWithoutLast(names, rows, row, p);
      var rest, leaf := Shrunk(p.groups), LeafOf(row);
      q := Partitioning(Subpartitioned, p.method_, p.subMethod, [], rest);
      SubpartitionSize(names, p.method_, p.subMethod, rest, StartsGroup(rest, leaf.ordinal), leaf.group, leaf.ordinal, leaf.entry);
      RowsSayMore(rows, row, p, q);
      ReadsGroups(names, rows, q);
    }
  }

  lemma FirstRowKept(names: Names, rows: seq<Row>, row: Row, p: Partitioning)
    requires Reads(names, rows + [row], p) && rows != []
    ensures p.kind == Partitioned || p.kind == Subpartitioned
  {
    hide RowsSay, Verdict, EntriesDescribed, LeavesDescribed, Leaves;
  }

  lemma ReadsPartitions(names: Names, rows: seq<Row>, q: Partitioning)
    requires rows != [] && RowsSay(rows, q) && q == Partitioning(Partitioned, q.method_, "", q.partitions, [])
    requires EntriesValid(names, q.partitions) && EntriesDescribed(rows, q.partitions) && NoDuplicates(Folds(names, q.partitions))
    requires q.method_ in METHODS && |rows| <= MAX_LEAVES
    ensures Reads(names, rows, q)
  {
    hide EntriesValid, EntriesDescribed, Folds, NoDuplicates, RowsSay;
    EntriesCounted(rows, q.partitions);
  }

  lemma ReadsGroups(names: Names, rows: seq<Row>, q: Partitioning)
    requires rows != [] && RowsSay(rows, q) && q == Partitioning(Subpartitioned, q.method_, q.subMethod, [], q.groups)
    requires GroupsValid(names, q.groups) && LeavesDescribed(rows, Leaves(q.groups))
    requires NoDuplicates(GroupFolds(names, q.groups)) && NoDuplicates(LeafFolds(names, Leaves(q.groups)))
    requires q.method_ in PARENT_METHODS && q.subMethod in SUB_METHODS && |Leaves(q.groups)| <= MAX_LEAVES
    ensures Reads(names, rows, q)
  {
    hide *;
    SomeGroup(rows, q.groups);
    VerdictOfGroups(names, q);
    ReadsBy(names, rows, q);
  }

  lemma VerdictOfGroups(names: Names, q: Partitioning)
    requires q == Partitioning(Subpartitioned, q.method_, q.subMethod, [], q.groups)
    requires GroupsValid(names, q.groups) && q.groups != []
    requires NoDuplicates(GroupFolds(names, q.groups)) && NoDuplicates(LeafFolds(names, Leaves(q.groups)))
    requires q.method_ in PARENT_METHODS && q.subMethod in SUB_METHODS && |Leaves(q.groups)| <= MAX_LEAVES
    ensures Verdict(names, q).Some?
  {
    hide ValidPartitions, GroupsValid, GroupFolds, LeafFolds, Leaves, NoDuplicates;
  }

  lemma ReadsBy(names: Names, rows: seq<Row>, q: Partitioning)
    requires rows != [] && RowsSay(rows, q) && Verdict(names, q).Some?
    requires if q.kind == Partitioned then EntriesDescribed(rows, q.partitions)
             else q.kind == Subpartitioned && LeavesDescribed(rows, Leaves(q.groups))
    ensures Reads(names, rows, q)
  {
    hide RowsSay, Verdict, EntriesDescribed, LeavesDescribed, Leaves;
  }

  lemma SomeGroup(rows: seq<Row>, groups: seq<Group>)
    requires rows != [] && LeavesDescribed(rows, Leaves(groups))
    ensures groups != []
  {
    hide Describes;
  }

  /** Rows that read as something have prefixes that do, in fewer bytes. */
  lemma {:induction false} PrefixFits(names: Names, rows: seq<Row>, n: nat, p: Partitioning, maximum: int)
    requires 1 <= n <= |rows| && Fitting(names, rows, p, maximum)
    ensures exists q :: Fitting(names, rows[..n], q, maximum)
    decreases |rows|
  {
    hide *;
    FittingParts(names, rows, p, maximum);
    if n == |rows| {
      assert rows[..n] == rows;
    } else {
      var init, row := rows[..|rows| - 1], rows[|rows| - 1];
      assert rows == init + [row];
      var q := OneRowLess(names, init, row, p);
      FittingParts(names, init, q, maximum);
      PrefixFits(names, init, n, q, maximum);
      assert init[..n] == rows[..n];
    }
  }

  lemma FittingParts(names: Names, rows: seq<Row>, p: Partitioning, maximum: int)
    ensures Fitting(names, rows, p, maximum) == (Reads(names, rows, p) && |PartitioningText(p)| <= maximum)
  {
    hide Reads, PartitioningText;
  }

  // ------------------------------------------------------- completeness

  /** A reading stands for what its rows read as. */
  lemma ReadingReads(names: Names, rows: seq<Row>, s: Reading, maximum: int)
    requires ReadsAs(names, rows, s, maximum) && s.p.kind != Unread
    ensures Fitting(names, rows, s.p, maximum) && s.bytes == |PartitioningText(s.p)|
    ensures Verdict(names, s.p)
         == Some(if s.p.kind == Unpartitioned then (0, 0) else (|s.p.partitions| + |s.p.groups|, |rows| - |s.p.partitions|))
    ensures s.p.kind == Unpartitioned || |rows| >= |s.p.partitions|
  {
    hide *;
    RowsRead(names, rows, s, maximum);
    ReadingParts(names, rows, s, maximum);
    VerdictOf(names, s.p);
    if s.p.kind == Partitioned {
      EntriesCounted(rows, s.p.partitions);
      ReadsBy(names, rows, s.p);
    } else if s.p.kind == Subpartitioned {
      LeavesCounted(rows, Leaves(s.p.groups));
      ReadsBy(names, rows, s.p);
    } else {
      ReadsNone(names, rows, s.p);
    }
    FittingParts(names, rows, s.p, maximum);
  }

  lemma ReadingParts(names: Names, rows: seq<Row>, s: Reading, maximum: int)
    requires ReadsAs(names, rows, s, maximum) && s.p.kind != Unread
    ensures s.bytes == |PartitioningText(s.p)| <= maximum && RowsSay(rows, s.p)
    ensures s.p.kind == Unpartitioned ==> |rows| == 1 && s.p == Partitioning(Unpartitioned, "", "", [], [])
    ensures s.p.kind == Partitioned ==> ValidPartitions(names, s.p) && EntriesDescribed(rows, s.p.partitions)
    ensures s.p.kind == Subpartitioned ==> ValidGroups(names, s.p) && LeavesDescribed(rows, Leaves(s.p.groups))
  {
    hide ValidPartitions, ValidGroups, EntriesDescribed, LeavesDescribed, Folds, GroupFolds, LeafFolds, Seen, RowsSay, Leaves,
         PartitioningText;
  }

  lemma VerdictOf(names: Names, p: Partitioning)
    ensures p == Partitioning(Unpartitioned, "", "", [], []) ==> Verdict(names, p) == Some((0, 0))
    ensures p.kind == Partitioned && ValidPartitions(names, p) ==> p.groups == [] && Verdict(names, p) == Some((|p.partitions|, 0))
    ensures p.kind == Subpartitioned && ValidGroups(names, p) ==>
              p.partitions == [] && Verdict(names, p) == Some((|p.groups|, |Leaves(p.groups)|))
  {
    hide EntriesValid, GroupsValid, Folds, GroupFolds, LeafFolds, Leaves, NoDuplicates;
  }

  lemma ReadsNone(names: Names, rows: seq<Row>, p: Partitioning)
    requires |rows| == 1 && RowsSay(rows, p) && p.kind == Unpartitioned && Verdict(names, p).Some?
    ensures Reads(names, rows, p)
  {
    hide RowsSay, Verdict;
  }

  lemma PartitionFitsBy(names: Names, s: Reading, row: Row, m: string, e: Entry, maximum: int)
    requires e == EntryOf(row) && DescribesEntry(row, e) && ValidName(names, e.name) && ValidStatistics(e.statistics)
    requires e.ordinal == |s.p.partitions| + 1 && RowSays(row, Partitioning(Partitioned, m, "", [], [])) && m in METHODS
    requires (s.p.method_ == "" || s.p.method_ == m) && names.fold(e.name) !in s.names
    requires |PartitioningText(Partitioning(Partitioned, m, "", s.p.partitions + [e], []))| <= maximum
    ensures PartitionFits(names, s, row, maximum)
  {
    hide ValidName, ValidStatistics, DescribesEntry, EntryOf, PartitioningText, SaysOrdinal, SaysMethod, MapMethod;
    RowIsParsed(row);
  }

  /** A row that can be read as one more partition is one. */
  lemma PartitionNeeded(names: Names, rows: seq<Row>, s: Reading, row: Row, p: Partitioning, maximum: int)
    requires ReadsAs(names, rows, s, maximum) && (s.p.kind == Partitioned || s == NOTHING)
    requires Fitting(names, rows + [row], p, maximum) && p.kind == Partitioned
    ensures PartitionFits(names, s, row, maximum)
  {
    hide *;
    FittingParts(names, rows + [row], p, maximum);
    PartitionsOf(names, rows + [row], p);
    var init, e := p.partitions[..|p.partitions| - 1], p.partitions[|p.partitions| - 1];
    assert p.partitions == init + [e];
    EntriesWithoutLast(names, rows, row, init, e);
    var q := Partitioning(Partitioned, p.method_, "", init, []);
    RowsSayMore(rows, row, p, q);
    RowSaysSame(row, p, Partitioning(Partitioned, p.method_, "", [], []));
    PartitionState(names, rows, s, maximum);
    RowsRead(names, rows, s, maximum);
    if s.p.kind == Partitioned {
      OneRowReads(names, rows, row, p, init, e);
      ReadingReads(names, rows, s, maximum);
      FittingParts(names, rows, s.p, maximum);
      ReadingIsUnique(names, rows, s.p, q);
      PartitionedParts(names, rows, s, p.method_, maximum);
    } else {
      FoldsNone(names);
      PartitionedParts(names, rows, s, p.method_, maximum);
    }
    PartitionFitsBy(names, s, row, p.method_, e, maximum);
  }

  lemma RowSaysSame(row: Row, p: Partitioning, q: Partitioning)
    requires p.kind == q.kind && p.method_ == q.method_ && p.subMethod == q.subMethod
    ensures RowSays(row, p) == RowSays(row, q)
  {
    hide MapMethod;
  }

  lemma OneRowReads(names: Names, rows: seq<Row>, row: Row, p: Partitioning, init: seq<Entry>, e: Entry)
    requires Reads(names, rows + [row], p) && p.kind == Partitioned && p.partitions == init + [e] && rows != []
    ensures Reads(names, rows, Partitioning(Partitioned, p.method_, "", init, []))
  {
    hide *;
    PartitionsOf(names, rows + [row], p);
    EntriesWithoutLast(names, rows, row, init, e);
    var q := Partitioning(Partitioned, p.method_, "", init, []);
    RowsSayMore(rows, row, p, q);
    ReadsPartitions(names, rows, q);
  }

  lemma LeafFitsBy(names: Names, s: Reading, row: Row, m: string, sub: string, maximum: int)
    requires LeafColumns(names, row) && m == MethodOf(row.partitionMethod) && sub == MethodOf(row.subMethod)
    requires (s.p.method_ == "" || s.p.method_ == m) && (s.p.subMethod == "" || s.p.subMethod == sub)
    requires var leaf := LeafOf(row);
             var newGroup := StartsGroup(s.p.groups, leaf.ordinal);
             && Continues(names, s.p.groups, newGroup, leaf.group, leaf.ordinal, leaf.entry)
             && var next := Extended(s.p.groups, newGroup, leaf.group, leaf.ordinal, leaf.entry);
                |PartitioningText(Partitioning(Subpartitioned, m, sub, [], next))| <= maximum
    requires names.fold(LeafOf(row).entry.name) !in s.subNames
    ensures LeafFits(names, s, row, maximum)
  {
    hide LeafColumns, LeafOf, MethodOf, StartsGroup, Continues, Extended, PartitioningText;
  }

  lemma LeafColumnsBy(names: Names, row: Row, groups: seq<Group>, newGroup: bool, p: Partitioning)
    requires var leaf := LeafOf(row);
             Describes(row, leaf) && Continues(names, groups, newGroup, leaf.group, leaf.ordinal, leaf.entry)
    requires RowSays(row, p) && p.kind == Subpartitioned && p.method_ in PARENT_METHODS && p.subMethod in SUB_METHODS
    ensures LeafColumns(names, row) && p.method_ == MethodOf(row.partitionMethod) && p.subMethod == MethodOf(row.subMethod)
  {
    hide ValidName, ValidStatistics, Describes, LeafOf, MapMethod, Seen, GroupFolds, SaysOrdinal, SaysMethod;
    RowIsParsed(row);
  }

  /** A row that can be read as one more subpartition is one. */
  lemma LeafNeeded(names: Names, rows: seq<Row>, s: Reading, row: Row, p: Partitioning, maximum: int)
    requires ReadsAs(names, rows, s, maximum) && (s.p.kind == Subpartitioned || s == NOTHING)
    requires Fitting(names, rows + [row], p, maximum) && p.kind == Subpartitioned
    ensures LeafFits(names, s, row, maximum)
  {
    hide *;
    FittingParts(names, rows + [row], p, maximum);
    GroupsOf(names, rows + [row], p);
    GroupsWithoutLast(names, rows, row, p);
    var rest := Shrunk(p.groups);
    var q := Partitioning(Subpartitioned, p.method_, p.subMethod, [], rest);
    RowsSayMore(rows, row, p, q);
    RowsRead(names, rows, s, maximum);
    GroupStateOf(names, rows, s, maximum);
    StateParts(names, rows, s);
    LeavesCounted(rows, Leaves(rest));
    if s.p.kind == Subpartitioned {
      ReadsGroups(names, rows, q);
      ReadingReads(names, rows, s, maximum);
      FittingParts(names, rows, s.p, maximum);
      ReadingIsUnique(names, rows, s.p, q);
    } else {
      SameLeaves(rows, Leaves(rest), Leaves(s.p.groups));
      LeavesDetermine(names, rest, s.p.groups);
    }
    LeafColumnsBy(names, row, rest, StartsGroup(rest, LeafOf(row).ordinal), p);
    LeafFitsBy(names, s, row, p.method_, p.subMethod, maximum);
  }

  /** The reader looks for what the row's columns make the only possible kind. */
  lemma KindNeeded(names: Names, rows: seq<Row>, s: Reading, row: Row, p: Partitioning, maximum: int)
    requires ReadsAs(names, rows, s, maximum) && Fitting(names, rows + [row], p, maximum)
    ensures s.p.kind != Unread ==> p.kind == s.p.kind && p.kind != Unpartitioned
    ensures s.p.kind == Unread ==>
              p.kind == if row.partitionName == None then Unpartitioned else if row.subName == None then Partitioned else Subpartitioned
    ensures |rows| < MAX_LEAVES
  {
    hide *;
    RowsRead(names, rows, s, maximum);
    FittingParts(names, rows + [row], p, maximum);
    FirstRowDecides(names, rows + [row], p);
    LeavesLimit(names, rows + [row], p);
    if s.p.kind != Unread {
      ReadingReads(names, rows, s, maximum);
      FittingParts(names, rows, s.p, maximum);
      FirstRowDecides(names, rows, s.p);
      SomeRows(names, rows, s.p);
      assert (rows + [row])[0] == rows[0];
      FirstRowKept(names, rows, row, p);
    }
  }

  lemma SomeRows(names: Names, rows: seq<Row>, p: Partitioning)
    requires Reads(names, rows, p)
    ensures rows != []
  {
    hide RowsSay, Verdict, EntriesDescribed, LeavesDescribed, Leaves;
  }

  lemma LeavesLimit(names: Names, rows: seq<Row>, p: Partitioning)
    requires Reads(names, rows, p)
    ensures |rows| <= MAX_LEAVES
  {
    hide RowsSay, Verdict, EntriesDescribed, LeavesDescribed, Leaves;
    if p.kind == Partitioned {
      PartitionsOf(names, rows, p);
      EntriesCounted(rows, p.partitions);
    }
    if p.kind == Subpartitioned {
      GroupsOf(names, rows, p);
      LeavesCounted(rows, Leaves(p.groups));
    }
  }

  /** Nothing fits the rows when nothing fits a prefix of them. */
  lemma NothingFits(names: Names, rows: seq<Row>, n: nat, maximum: int)
    requires 1 <= n <= |rows| && forall q :: !Fitting(names, rows[..n], q, maximum)
    ensures forall p :: !Fitting(names, rows, p, maximum)
  {
    forall p ensures !Fitting(names, rows, p, maximum) {
      hide *;
      if Fitting(names, rows, p, maximum) {
        PrefixFits(names, rows, n, p, maximum);
      }
    }
  }

  /** What the row at i must pass in the state before it; false when no row is allowed there. */
  predicate RowFits(names: Names, i: nat, s: Reading, row: Row, maximum: int) {
    && i < MAX_LEAVES
    && if s.p.kind == Partitioned || (s.p.kind == Unread && row.partitionName.Some? && row.subName == None) then
         PartitionFits(names, s, row, maximum)
       else if s.p.kind == Subpartitioned || (s.p.kind == Unread && row.partitionName.Some?) then LeafFits(names, s, row, maximum)
       else s.p.kind == Unread && RowSays(row, Partitioning(Unpartitioned, "", "", [], []))
  }

  lemma RowNeeded(names: Names, rows: seq<Row>, s: Reading, row: Row, p: Partitioning, maximum: int)
    requires ReadsAs(names, rows, s, maximum) && Fitting(names, rows + [row], p, maximum)
    ensures RowFits(names, |rows|, s, row, maximum)
  {
    hide Reads, Fitting, ReadsAs, PartitionFits, LeafFits, RowSays;
    KindNeeded(names, rows, s, row, p, maximum);
    RowsRead(names, rows, s, maximum);
    FittingParts(names, rows + [row], p, maximum);
    if p.kind == Partitioned {
      PartitionNeeded(names, rows, s, row, p, maximum);
    } else if p.kind == Subpartitioned {
      LeafNeeded(names, rows, s, row, p, maximum);
    } else {
      LoneRow(names, rows, row, p);
    }
  }

  lemma LoneRow(names: Names, rows: seq<Row>, row: Row, p: Partitioning)
    requires Reads(names, rows + [row], p) && p.kind == Unpartitioned
    ensures RowSays(row, Partitioning(Unpartitioned, "", "", [], []))
  {
    hide MapMethod, Verdict;
    assert RowSays((rows + [row])[|rows|], p);
  }

  /** A row that does not pass makes all the rows unreadable. */
  lemma RowRefused(names: Names, rows: seq<Row>, i: nat, s: Reading, maximum: int)
    requires i < |rows| && ReadsAs(names, rows[..i], s, maximum) && !RowFits(names, i, s, rows[i], maximum)
    ensures forall p :: !Fitting(names, rows, p, maximum)
  {
    hide *;
    NextRow(rows, i);
    var read := rows[..i + 1];
    forall q ensures !Fitting(names, read, q, maximum) {
      if Fitting(names, read, q, maximum) {
        RowNeeded(names, rows[..i], s, rows[i], q, maximum);
      }
    }
    NothingFits(names, rows, i + 1, maximum);
  }

  lemma RowFitsParts(names: Names, i: nat, s: Reading, row: Row, maximum: int)
    ensures RowFits(names, i, s, row, maximum)
         == (&& i < MAX_LEAVES
             && if s.p.kind == Partitioned || (s.p.kind == Unread && row.partitionName.Some? && row.subName == None) then
                  PartitionFits(names, s, row, maximum)
                else if s.p.kind == Subpartitioned || (s.p.kind == Unread && row.partitionName.Some?) then
                  LeafFits(names, s, row, maximum)
                else s.p.kind == Unread && RowSays(row, Partitioning(Unpartitioned, "", "", [], [])))
  {
    hide PartitionFits, LeafFits, RowSays;
  }

  lemma NoRowsNoReading(names: Names, rows: seq<Row>, maximum: int)
    requires rows == []
    ensures forall p :: !Fitting(names, rows, p, maximum)
  {
    hide RowsSay, Verdict, EntriesDescribed, LeavesDescribed, Leaves, PartitioningText;
  }

  /** What the call promises: the result that the rows read as, when there is one within the maximum, with its counts. */
  ghost predicate ReadResult(
    names: Names, rows: seq<Row>, maximum: int, envelope: int, r: Result<(Partitioning, int, (nat, nat)), ReadError>
  ) {
    if r.Success? then
      && Fitting(names, rows, r.value.0, maximum) && Verdict(names, r.value.0) == Some(r.value.2)
      && r.value.1 == envelope + |PartitioningText(r.value.0)|
    else forall p :: !Fitting(names, rows, p, maximum)
  }

  lemma ReadResultBy(names: Names, rows: seq<Row>, s: Reading, maximum: int, envelope: int, counts: (nat, nat))
    requires ReadsAs(names, rows, s, maximum) && rows != []
    requires counts == if s.p.kind == Unpartitioned then (0, 0) else (|s.p.partitions| + |s.p.groups|, |rows| - |s.p.partitions|)
    ensures ReadResult(names, rows, maximum, envelope, Success((s.p, envelope + s.bytes, counts)))
  {
    hide *;
    RowsRead(names, rows, s, maximum);
    ReadingReads(names, rows, s, maximum);
    ReadResultParts(names, rows, s.p, maximum, envelope, envelope + s.bytes, counts);
  }

  lemma ReadResultParts(
    names: Names, rows: seq<Row>, p: Partitioning, maximum: int, envelope: int, resultBytes: int, counts: (nat, nat)
  )
    requires Fitting(names, rows, p, maximum) && Verdict(names, p) == Some(counts)
    requires resultBytes == envelope + |PartitioningText(p)|
    ensures ReadResult(names, rows, maximum, envelope, Success((p, resultBytes, counts)))
  {
    hide Fitting, Verdict, PartitioningText;
  }

  lemma CountsAreNatural(names: Names, rows: seq<Row>, s: Reading, maximum: int)
    requires ReadsAs(names, rows, s, maximum) && rows != []
    ensures s.p.kind == Unpartitioned || |rows| >= |s.p.partitions|
  {
    hide *;
    RowsRead(names, rows, s, maximum);
    ReadingReads(names, rows, s, maximum);
  }

  lemma Refused(names: Names, rows: seq<Row>, maximum: int, envelope: int)
    requires forall p :: !Fitting(names, rows, p, maximum)
    ensures forall e: ReadError :: ReadResult(names, rows, maximum, envelope, Failure(e))
  {
    hide Fitting, Verdict, PartitioningText;
  }

  // -------------------------------------------------------------- fetched rows

  /** A row as it is fetched: whether it scans, the table it names, and what it says. */
  datatype Fetched = Fetched(scans: bool, schema: Bytes, table: Bytes, row: Row)

  /** The table that was resolved before, and whether the server folds identifiers. */
  datatype Identity = Identity(schema: Bytes, table: Bytes, caseInsensitive: bool)

  const MAX_RAW_BYTES := 16 * 1024 * 1024

  function LowerAscii(b: byte): byte {
    if 65 <= b <= 90 then b + 32 else b
  }

  /** The same byte, or one letter of the English alphabet in both cases. */
  predicate SameLetter(a: byte, b: byte) {
    a == b || ('A' as int <= a <= 'Z' as int && b == a + 32) || ('a' as int <= a <= 'z' as int && b == a - 32)
  }

  lemma LoweredIsSameLetter(a: byte, b: byte)
    ensures LowerAscii(a) == LowerAscii(b) <==> SameLetter(a, b)
  {
  }

  predicate SameIdentifier(actual: Bytes, requested: Bytes, caseInsensitive: bool) {
    if caseInsensitive then
      |actual| == |requested| && forall i :: 0 <= i < |actual| ==> SameLetter(actual[i], requested[i])
    else actual == requested
  }

  /** tokenIdentifierMatches. */
  method IdentifierMatches(actual: Bytes, requested: Bytes, caseInsensitive: bool) returns (r: bool)
    ensures r == SameIdentifier(actual, requested, caseInsensitive)
  {
    if !caseInsensitive {
      return actual == requested;
    }
    if |actual| != |requested| {
      return false;
    }
    for index := 0 to |actual|
      invariant forall i :: 0 <= i < index ==> SameLetter(actual[i], requested[i])
    {
      LoweredIsSameLetter(actual[index], requested[index]);
      if LowerAscii(actual[index]) != LowerAscii(requested[index]) {
        return false;
      }
    }
    return true;
  }

  function Total(values: seq<Bytes>): nat {
    if values == [] then 0 else Total(values[..|values| - 1]) + |values[|values| - 1]|
  }

  lemma {:induction false} TotalGrows(values: seq<Bytes>, i: nat)
    requires i <= |values|
    ensures Total(values[..i]) <= Total(values)
    ensures i < |values| ==> Total(values[..i + 1]) == Total(values[..i]) + |values[i]|
    decreases |values| - i
  {
    if i == |values| {
      assert values[..i] == values;
    } else {
      assert values[..i + 1][..i] == values[..i];
      TotalGrows(values, i + 1);
    }
  }

  /** boundedRawTotal. */
  method BoundedRawTotal(current: nat, values: seq<Bytes>) returns (r: Option<int>)
    requires current <= MAX_RAW_BYTES
    ensures r == Within(current + Total(values), MAX_RAW_BYTES)
  {
    hide Total;
    var total: int := current;
    TotalGrows(values, 0);
    NoTotal(values);
    for i := 0 to |values|
      invariant total == current + Total(values[..i]) <= MAX_RAW_BYTES
    {
      TotalGrows(values, i);
      TotalGrows(values, i + 1);
      var next := AddEncodedSize(total, |values[i]|, MAX_RAW_BYTES);
      if next == None {
        return None;
      }
      total := next.value;
    }
    r := Some(total);
  }

  lemma NoTotal(values: seq<Bytes>)
    ensures Total(values[..0]) == 0 && values[..|values|] == values
  {
  }

  /** The columns of a fetched row; SQL NULL has no bytes. */
  function RawValues(f: Fetched): seq<Bytes> {
    [f.schema, f.table, TextOf(f.row.partitionName), TextOf(f.row.partitionOrdinal), TextOf(f.row.partitionMethod),
     TextOf(f.row.subName), TextOf(f.row.subOrdinal), TextOf(f.row.subMethod),
     TextOf(f.row.rows), TextOf(f.row.data), TextOf(f.row.index)]
  }

  function SizeOf(raw: Option<Bytes>): nat {
    if raw.Some? then |raw.value| else 0
  }

  /** The raw bytes of a row: its eleven columns together. */
  function RawSize(f: Fetched): nat {
    var row := f.row;
    |f.schema| + |f.table|
    + SizeOf(row.partitionName) + SizeOf(row.partitionOrdinal) + SizeOf(row.partitionMethod)
    + SizeOf(row.subName) + SizeOf(row.subOrdinal) + SizeOf(row.subMethod)
    + SizeOf(row.rows) + SizeOf(row.data) + SizeOf(row.index)
  }

  lemma SizeOfText(raw: Option<Bytes>)
    ensures |TextOf(raw)| == SizeOf(raw)
  {
  }

  lemma ElevenValues(values: seq<Bytes>)
    requires |values| == 11
    ensures Total(values) == |values[0]| + |values[1]| + |values[2]| + |values[3]| + |values[4]| + |values[5]| + |values[6]|
                             + |values[7]| + |values[8]| + |values[9]| + |values[10]|
  {
    hide Total;
    NoTotal(values);
    TotalGrows(values, 0);
    TotalGrows(values, 1);
    TotalGrows(values, 2);
    TotalGrows(values, 3);
    TotalGrows(values, 4);
    TotalGrows(values, 5);
    TotalGrows(values, 6);
    TotalGrows(values, 7);
    TotalGrows(values, 8);
    TotalGrows(values, 9);
    TotalGrows(values, 10);
  }

  /** Adding the values up gives the row's raw bytes. */
  lemma RawValuesTotal(f: Fetched)
    ensures Total(RawValues(f)) == RawSize(f)
  {
    hide Total, TextOf, SizeOf;
    ElevenValues(RawValues(f));
    var row := f.row;
    SizeOfText(row.partitionName);
    SizeOfText(row.partitionOrdinal);
    SizeOfText(row.partitionMethod);
    SizeOfText(row.subName);
    SizeOfText(row.subOrdinal);
    SizeOfText(row.subMethod);
    SizeOfText(row.rows);
    SizeOfText(row.data);
    SizeOfText(row.index);
  }

  function RawTotal(fetched: seq<Fetched>): nat {
    if fetched == [] then 0 else RawTotal(fetched[..|fetched| - 1]) + RawSize(fetched[|fetched| - 1])
  }

  lemma {:induction false} RawTotalGrows(fetched: seq<Fetched>, i: nat)
    requires i <= |fetched|
    ensures RawTotal(fetched[..i]) <= RawTotal(fetched)
    ensures i < |fetched| ==> RawTotal(fetched[..i + 1]) == RawTotal(fetched[..i]) + RawSize(fetched[i])
    decreases |fetched| - i
  {
    hide RawSize;
    if i == |fetched| {
      assert fetched[..i] == fetched;
    } else {
      assert fetched[..i + 1][..i] == fetched[..i];
      RawTotalGrows(fetched, i + 1);
    }
  }

  predicate OfTable(identity: Identity, f: Fetched) {
    && f.scans && SameIdentifier(f.schema, identity.schema, identity.caseInsensitive)
    && SameIdentifier(f.table, identity.table, identity.caseInsensitive)
  }

  /** Every row scans and is the table's own, and all raw bytes together are bounded. */
  predicate Readable(identity: Identity, fetched: seq<Fetched>, rawTotal: nat) {
    && (forall i :: 0 <= i < |fetched| ==> OfTable(identity, fetched[i]))
    && rawTotal + RawTotal(fetched) <= MAX_RAW_BYTES
  }

  lemma ReadableStart(identity: Identity, fetched: seq<Fetched>, rawTotal: nat)
    requires rawTotal <= MAX_RAW_BYTES
    ensures Readable(identity, fetched[..0], rawTotal) && RawTotal(fetched[..0]) == 0 && fetched[..|fetched|] == fetched
  {
  }

  lemma ReadableStep(identity: Identity, fetched: seq<Fetched>, rawTotal: nat, i: nat)
    requires i < |fetched| && Readable(identity, fetched[..i], rawTotal)
    ensures RawTotal(fetched[..i + 1]) == RawTotal(fetched[..i]) + RawSize(fetched[i])
    ensures Readable(identity, fetched[..i + 1], rawTotal)
         == (OfTable(identity, fetched[i]) && rawTotal + RawTotal(fetched[..i + 1]) <= MAX_RAW_BYTES)
    ensures !Readable(identity, fetched[..i + 1], rawTotal) ==> !Readable(identity, fetched, rawTotal)
  {
    hide OfTable, RawTotal, RawSize;
    RawTotalGrows(fetched, i);
    RawTotalGrows(fetched, i + 1);
    var shorter, longer := fetched[..i], fetched[..i + 1];
    forall j | 0 <= j < i ensures OfTable(identity, longer[j]) {
      assert shorter[j] == longer[j];
    }
    assert longer[i] == fetched[i];
  }

  lemma OfTableParts(identity: Identity, f: Fetched)
    ensures OfTable(identity, f) ==
              (f.scans && SameIdentifier(f.schema, identity.schema, identity.caseInsensitive)
               && SameIdentifier(f.table, identity.table, identity.caseInsensitive))
  {
    hide SameIdentifier;
  }

  function RowsOf(fetched: seq<Fetched>): (rows: seq<Row>)
    ensures |rows| == |fetched| && forall i :: 0 <= i < |rows| ==> rows[i] == fetched[i].row
  {
    seq(|fetched|, i requires 0 <= i < |fetched| => fetched[i].row)
  }

  /**
   readPartitionStatistics: succeeds only when every row is read, is the table's own and the raw bytes are bounded;
   then it succeeds exactly when the rows say something that the service accepts and that fits, and returns just
   that, with the counts the service derives and with its exact size. The 15 bytes are an unpartitioned result's.
   */
  method ReadPartitions(
    names: Names, identity: Identity, fetched: seq<Fetched>, streamFails: bool, rawTotal: nat, resultBytes: int,
    maxResultBytes: int
  ) returns (r: Result<(Partitioning, int, (nat, nat)), ReadError>)
    requires resultBytes <= maxResultBytes && rawTotal <= MAX_RAW_BYTES
    ensures r.Success? ==> resultBytes >= 15 && Readable(identity, fetched, rawTotal) && !streamFails
    ensures resultBytes >= 15 && Readable(identity, fetched, rawTotal) && !streamFails ==>
              ReadResult(names, RowsOf(fetched), maxResultBytes - (resultBytes - 15), resultBytes - 15, r)
  {
    hide *;
    if resultBytes < 15 {
      return Failure(InvalidMetadata);
    }
    var envelope := resultBytes - 15;
    var maximum := maxResultBytes - envelope;
    var s, total := NOTHING, rawTotal;
    ghost var rows := RowsOf(fetched);
    StartsUnread(names, maximum);
    NoRows(rows);
    ReadableStart(identity, fetched, rawTotal);
    for i := 0 to |fetched|
      invariant ReadsAs(names, rows[..i], s, maximum) && Readable(identity, fetched[..i], rawTotal)
      invariant total == rawTotal + RawTotal(fetched[..i]) <= MAX_RAW_BYTES
    {
      var row := fetched[i].row;
      ReadableStep(identity, fetched, rawTotal, i);
      OfTableParts(identity, fetched[i]);
      if !fetched[i].scans {
        return Failure(ExecutionError);
      }
      RawValuesTotal(fetched[i]);
      var bounded := BoundedRawTotal(total, RawValues(fetched[i]));
      WithinParts(total + Total(RawValues(fetched[i])), MAX_RAW_BYTES);
      if bounded == None {
        return Failure(TooLarge);
      }
      total := bounded.value;
      var sameSchema := IdentifierMatches(fetched[i].schema, identity.schema, identity.caseInsensitive);
      var sameTable := IdentifierMatches(fetched[i].table, identity.table, identity.caseInsensitive);
      if !sameSchema || !sameTable {
        return Failure(ResourceMismatch);
      }
      RowsRead(names, rows[..i], s, maximum);
      NextRow(rows, i);
      RowFitsParts(names, i, s, row, maximum);
      if !RowFits(names, i, s, row, maximum) {
        RowRefused(names, rows, i, s, maximum);
        Refused(names, rows, maximum, envelope);
      }
      if i + 1 > MAX_LEAVES {
        return Failure(TooLarge);
      }
      var next;
      if s.p.kind == Partitioned || (s.p.kind == Unread && row.partitionName.Some? && row.subName == None) {
        next := TakePartition(names, rows[..i], s, row, maximum);
      } else if s.p.kind == Subpartitioned || (s.p.kind == Unread && row.partitionName.Some?) {
        next := TakeSubpartition(names, rows[..i], s, row, maximum);
      } else if s.p.kind == Unpartitioned {
        return Failure(InvalidMetadata);
      } else {
        next := TakeNone(names, rows[..i], s, row, maximum);
      }
      if next.Failure? {
        return Failure(next.error);
      }
      s := next.value;
    }
    if streamFails {
      return Failure(ExecutionError);
    }
    RowsRead(names, rows, s, maximum);
    if |fetched| == 0 {
      NoRowsNoReading(names, rows, maximum);
      Refused(names, rows, maximum, envelope);
      return Failure(InvalidMetadata);
    }
    CountsAreNatural(names, rows, s, maximum);
    var counts: (nat, nat) :=
      if s.p.kind == Unpartitioned then (0, 0) else (|s.p.partitions| + |s.p.groups|, |fetched| - |s.p.partitions|);
    ReadResultBy(names, rows, s, maximum, envelope, counts);
    r := Success((s.p, envelope + s.bytes, counts));
  }

  lemma NoRows(rows: seq<Row>)
    ensures rows[..0] == [] && rows[..|rows|] == rows
  {
  }

  lemma NextRow(rows: seq<Row>, i: nat)
    requires i < |rows|
    ensures rows[..i + 1] == rows[..i] + [rows[i]]
  {
  }
}
