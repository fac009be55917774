/** The collector's charts: rows grouped by a prefix of their time, then put into buckets.

    Times are seconds since the epoch; a row's text names a whole second, its first nineteen
    characters that second and its first sixteen its minute. */
module Bucketing {
  import opened Sequences

  datatype Stamp = At(second: int) | Malformed(text: string)

  datatype Gran = Second | Minute

  /** A group's key. */
  datatype Key = Time(second: int) | Unparsed(text: string)

  /** A stored row; tag is what the chart splits by.  No count stands for one occurrence. */
  datatype Row<T> = Row(received: Stamp, tag: T, occurrences: int)

  datatype Group<T> = Group(key: Key, tag: T, n: int)

  function GranOf(bucketS: real): Gran { if bucketS < 60.0 then Second else Minute }

  function KeyOf(s: Stamp, gran: Gran): Key {
    match s
    case At(second) => Time(if gran == Second then second else second - second % 60)
    case Malformed(text) => Unparsed(Take(if gran == Second then 19 else 16, text))
  }

  datatype Chart = Chart(start: real, bucketS: real, buckets: nat) {
    ghost predicate Valid() { bucketS >= 1.0 && buckets >= 1 }
    function Gran(): Gran { GranOf(bucketS) }
  }

  /** The chart of the last hours up to now. */
  function ChartOf(now: real, hours: nat, buckets: nat): (c: Chart)
    requires buckets >= 1
    ensures c.Valid()
  {
    var width := hours as real * 3600.0 / buckets as real;
    Chart(now - hours as real * 3600.0, if width > 1.0 then width else 1.0, buckets)
  }

  /** Conversion to an integer drops the fraction, towards zero. */
  function Truncate(x: real): int { if x >= 0.0 then x.Floor else -((-x).Floor) }

  function Clamp(i: int, buckets: nat): int {
    if i < 0 then 0 else if i >= buckets then buckets - 1 else i
  }

  function Index(c: Chart, t: int): int
    requires c.bucketS >= 1.0
  {
    Clamp(Truncate((t as real - c.start) / c.bucketS), c.buckets)
  }

  // ---- Sums ----

  /** The occurrences of the rows that a condition picks. */
  function RowSum<T>(rows: seq<Row<T>>, picks: Row<T> -> bool): int {
    if rows == [] then 0
    else
      var r := rows[|rows| - 1];
      RowSum(rows[..|rows| - 1], picks) + if picks(r) then r.occurrences else 0
  }

  function GroupSum<T>(groups: seq<Group<T>>, picks: (Key, T) -> bool): int {
    if groups == [] then 0
    else
      var g := groups[|groups| - 1];
      GroupSum(groups[..|groups| - 1], picks) + if picks(g.key, g.tag) then g.n else 0
  }

  /** The rows of a condition on groups. */
  function OfRows<T>(gran: Gran, picks: (Key, T) -> bool): Row<T> -> bool {
    (r: Row<T>) => picks(KeyOf(r.received, gran), r.tag)
  }

  function Only<T(==)>(key: Key, tag: T): (Key, T) -> bool { (k: Key, t: T) => k == key && t == tag }

  /** Groups of different key or tag, each with the sum of its rows. */
  ghost predicate Distinct<T(!new)>(groups: seq<Group<T>>, rows: seq<Row<T>>, gran: Gran) {
    && (forall i, j :: 0 <= i < j < |groups| ==> groups[i].key != groups[j].key || groups[i].tag != groups[j].tag)
    && (forall i :: 0 <= i < |groups| ==> groups[i].n == RowSum(rows, OfRows(gran, Only(groups[i].key, groups[i].tag))))
  }

  /** What grouping by key and tag and summing yields, in any order. */
  ghost predicate Grouped<T(!new)>(groups: seq<Group<T>>, rows: seq<Row<T>>, gran: Gran) {
    && Distinct(groups, rows, gran)
    && (forall r :: r in rows ==> Listed(groups, KeyOf(r.received, gran), r.tag))
  }

  predicate Listed<T(==)>(groups: seq<Group<T>>, key: Key, tag: T) {
    exists i :: 0 <= i < |groups| && groups[i].key == key && groups[i].tag == tag
  }

  /** The rows that the query selects: the time's text is compared with the start's, so a row is
      selected from the start's second on. */
  ghost predicate Selected<T(!new)>(rows: seq<Row<T>>, c: Chart) {
    forall r :: r in rows && r.received.At? ==> r.received.second >= c.start.Floor
  }

  // ---- The loops ----

  datatype Slot = Slot(t: int, caught: int, uncaught: int)

  function Count(s: Slot, caught: bool): int { if caught then s.caught else s.uncaught }

  /** A group that falls into a bucket. */
  predicate Falls(c: Chart, key: Key, i: int)
    requires c.bucketS >= 1.0
  {
    key.Time? && Index(c, key.second) == i
  }

  function InBucket<T(==)>(c: Chart, i: int, tag: T): (Key, T) -> bool
    requires c.bucketS >= 1.0
  {
    (k: Key, t: T) => t == tag && Falls(c, k, i)
  }

  function Parsed<T(==)>(tag: T): (Key, T) -> bool { (k: Key, t: T) => t == tag && k.Time? }

  lemma {:induction false} GroupStep<T>(groups: seq<Group<T>>, n: nat, picks: (Key, T) -> bool)
    requires n < |groups|
    ensures
      var g := groups[n];
      GroupSum(groups[..n + 1], picks) == GroupSum(groups[..n], picks) + if picks(g.key, g.tag) then g.n else 0
  {
    assert groups[..n + 1][..n] == groups[..n];
  }

  /** Where the k-th bucket begins. */
  function Boundary(c: Chart, k: nat): real { c.start + k as real * c.bucketS }

  /** A chart begins the given hours ago; its buckets cover the time up to now, and end with it unless
      they would be shorter than a second. */
  lemma {:induction false} ChartCovers(now: real, hours: nat, buckets: nat)
    requires buckets >= 1
    ensures
      var c := ChartOf(now, hours, buckets);
      && c.start == now - hours as real * 3600.0 && c.buckets == buckets && c.bucketS >= 1.0
      && Boundary(c, buckets) >= now && (hours as real * 3600.0 >= buckets as real ==> Boundary(c, buckets) == now)
  {
    var span, n := hours as real * 3600.0, buckets as real;
    DivideMultiply(span, n);
    var width := span / n;
    assert n * width == span;
    Scaled(1.0, width, n);
    Scaled(width, 1.0, n);
  }

  /** A slot's label is within a millisecond of where its bucket begins. */
  lemma {:induction false} LabelIsBoundary(c: Chart, i: nat)
    ensures -1.0 < Label(c, i) as real - Boundary(c, i) * 1000.0 < 1.0
  {
    hide Boundary;
    TruncateNear(Boundary(c, i) * 1000.0);
  }

  lemma {:induction false} TruncateNear(x: real)
    ensures -1.0 < Truncate(x) as real - x < 1.0
  {
  }

  /** The label of a slot: where it begins, in whole milliseconds. */
  function Label(c: Chart, i: nat): int { Truncate(Boundary(c, i) * 1000.0) }

  method TimeSeries(now: real, hours: nat, buckets: nat, groups: seq<Group<bool>>) returns (series: seq<Slot>)
    requires buckets >= 1
    ensures |series| == buckets
    ensures forall i :: 0 <= i < buckets ==> series[i].t == Label(ChartOf(now, hours, buckets), i)
    ensures forall i :: 0 <= i < buckets ==>
      && series[i].caught == GroupSum(groups, InBucket(ChartOf(now, hours, buckets), i, true))
      && series[i].uncaught == GroupSum(groups, InBucket(ChartOf(now, hours, buckets), i, false))
  {
    hide GroupSum, Label, Filled, Truncate;
    var start := now - hours as real * 3600.0;
    var width := hours as real * 3600.0 / buckets as real;
    var bucketS := if width > 1.0 then width else 1.0;
    ghost var c := ChartOf(now, hours, buckets);
    assert c == Chart(start, bucketS, buckets);
    series := [];
    for i := 0 to buckets
      invariant |series| == i && forall j :: 0 <= j < i ==> series[j] == Slot(Label(c, j), 0, 0)
    {
      LabelIs(c, i);
      assert Truncate((start + i as real * bucketS) * 1000.0) == Label(c, i);
      series := series + [Slot(Truncate((start + i as real * bucketS) * 1000.0), 0, 0)];
    }
    NothingFilled(series, c, groups);
    for n := 0 to |groups|
      invariant Filled(series, c, groups, n)
    {
      ghost var before := series;
      var g := groups[n];
      OneMoreFilled(before, c, groups, n);
      if g.key.Unparsed? { continue; }
      var idx := Truncate((g.key.second as real - start) / bucketS);
      idx := if idx < 0 then 0 else if idx >= buckets then buckets - 1 else idx;
      IndexIs(c, g.key.second);
      series := series[idx := if g.tag then series[idx].(caught := series[idx].caught + g.n)
                              else series[idx].(uncaught := series[idx].uncaught + g.n)];
    }
    AllFilled(series, c, groups);
    assert forall i :: 0 <= i < buckets ==> Count(series[i], true) == series[i].caught;
    assert forall i :: 0 <= i < buckets ==> Count(series[i], false) == series[i].uncaught;
  }

  /** The slots once the first n groups are in. */
  ghost predicate Filled(series: seq<Slot>, c: Chart, groups: seq<Group<bool>>, n: nat)
    requires c.Valid() && n <= |groups|
  {
    && |series| == c.buckets && (forall i :: 0 <= i < c.buckets ==> series[i].t == Label(c, i))
    && (forall i, caught :: 0 <= i < c.buckets ==>
          Count(series[i], caught) == GroupSum(groups[..n], InBucket(c, i, caught)))
  }

  /** A slot with a group added to one of its counts. */
  function Plus(s: Slot, g: Group<bool>): Slot {
    if g.tag then s.(caught := s.caught + g.n) else s.(uncaught := s.uncaught + g.n)
  }

  lemma {:induction false} NothingFilled(series: seq<Slot>, c: Chart, groups: seq<Group<bool>>)
    requires c.Valid() && |series| == c.buckets
    requires forall i :: 0 <= i < c.buckets ==> series[i] == Slot(Label(c, i), 0, 0)
    ensures Filled(series, c, groups, 0)
  {
    hide Label;
    forall i, caught ensures GroupSum(groups[..0], InBucket(c, i, caught)) == 0 {
      NoGroups(groups[..0], InBucket(c, i, caught));
    }
  }

  lemma {:induction false} OneMoreFilled(series: seq<Slot>, c: Chart, groups: seq<Group<bool>>, n: nat)
    requires c.Valid() && n < |groups| && Filled(series, c, groups, n)
    ensures |series| == c.buckets
    ensures
      var g := groups[n];
      && (g.key.Unparsed? ==> Filled(series, c, groups, n + 1))
      && (g.key.Time? ==>
            var idx := Index(c, g.key.second);
            0 <= idx < c.buckets && Filled(series[idx := Plus(series[idx], g)], c, groups, n + 1))
  {
    hide Index, GroupSum, Label, InBucket;
    var g := groups[n];
    if g.key.Time? { IndexIs(c, g.key.second); }
    forall i, caught
      ensures GroupSum(groups[..n + 1], InBucket(c, i, caught))
           == GroupSum(groups[..n], InBucket(c, i, caught)) + if g.tag == caught && Falls(c, g.key, i) then g.n else 0
    {
      FilledStep(c, groups, n, i, caught);
    }
  }

  lemma {:induction false} FilledStep(c: Chart, groups: seq<Group<bool>>, n: nat, i: int, caught: bool)
    requires c.Valid() && n < |groups|
    ensures
      var g := groups[n];
      GroupSum(groups[..n + 1], InBucket(c, i, caught))
      == GroupSum(groups[..n], InBucket(c, i, caught)) + if g.tag == caught && Falls(c, g.key, i) then g.n else 0
  {
    hide Index;
    GroupStep(groups, n, InBucket(c, i, caught));
  }

  lemma {:induction false} AllFilled(series: seq<Slot>, c: Chart, groups: seq<Group<bool>>)
    requires c.Valid() && Filled(series, c, groups, |groups|)
    ensures |series| == c.buckets && forall i :: 0 <= i < c.buckets ==> series[i].t == Label(c, i)
    ensures forall i, caught :: 0 <= i < c.buckets ==>
      Count(series[i], caught) == GroupSum(groups, InBucket(c, i, caught))
  {
    hide GroupSum, Label, InBucket;
    assert groups[..|groups|] == groups;
  }

  lemma {:induction false} LabelIs(c: Chart, i: nat)
    ensures Label(c, i) == Truncate((c.start + i as real * c.bucketS) * 1000.0)
  {
  }

  lemma {:induction false} NoGroups<T>(groups: seq<Group<T>>, picks: (Key, T) -> bool)
    requires groups == []
    ensures GroupSum(groups, picks) == 0
  {
  }

  lemma {:induction false} IndexIs(c: Chart, t: int)
    requires c.Valid()
    ensures Index(c, t) == Clamp(Truncate((t as real - c.start) / c.bucketS), c.buckets) && 0 <= Index(c, t) < c.buckets
  {
  }

  datatype Entry = Entry(total: int, buckets: seq<int>)

  /** Groups of events that have a fingerprint and a time. */
  predicate Charted(g: Group<string>) { g.tag != "" && g.key.Time? }

  /** The entries, the start in milliseconds and the width of a bucket in milliseconds. */
  method EventSeries(now: real, hours: nat, buckets: nat, groups: seq<Group<string>>)
    returns (series: map<string, Entry>, startMs: int, bucketMs: int)
    requires buckets >= 1
    ensures startMs == Label(ChartOf(now, hours, buckets), 0)
    ensures bucketMs == Truncate(ChartOf(now, hours, buckets).bucketS * 1000.0)
    ensures forall fp :: fp in series <==>
      fp != "" && exists n :: 0 <= n < |groups| && groups[n].tag == fp && groups[n].key.Time?
    ensures forall fp :: fp in series ==> |series[fp].buckets| == buckets
    ensures forall fp :: fp in series ==> series[fp].total == GroupSum(groups, Parsed(fp))
    ensures forall fp, i :: fp in series && 0 <= i < buckets ==>
      series[fp].buckets[i] == GroupSum(groups, InBucket(ChartOf(now, hours, buckets), i, fp))
  {
    hide Shows, Truncate, GroupSum;
    var start := now - hours as real * 3600.0;
    var width := hours as real * 3600.0 / buckets as real;
    var bucketS := if width > 1.0 then width else 1.0;
    ghost var c := ChartOf(now, hours, buckets);
    assert c == Chart(start, bucketS, buckets);
    startMs, bucketMs := Truncate(start * 1000.0), Truncate(bucketS * 1000.0);
    series := map[];
    NothingShown(c, groups);
    for n := 0 to |groups|
      invariant Shows(series, c, groups, n)
    {
      ghost var before := series;
      var g := groups[n];
      if !Charted(g) { Skipped(series, c, groups, n); }
      if g.tag == "" { continue; }
      if g.key.Unparsed? { continue; }
      var idx := Truncate((g.key.second as real - start) / bucketS);
      idx := if idx < 0 then 0 else if idx >= buckets then buckets - 1 else idx;
      IndexIs(c, g.key.second);
      EntryLength(series, c, groups, n);
      var entry := if g.tag in series then series[g.tag] else Entry(0, seq(buckets, _ => 0));
      entry := entry.(total := entry.total + g.n);
      entry := entry.(buckets := entry.buckets[idx := entry.buckets[idx] + g.n]);
      series := series[g.tag := entry];
      Added(before, series, c, groups, n);
    }
    AllShown(series, c, groups);
  }

  /** What the entries are once the first n groups are in. */
  ghost predicate Shows(series: map<string, Entry>, c: Chart, groups: seq<Group<string>>, n: nat)
    requires c.Valid() && n <= |groups|
  {
    && (forall fp :: fp in series <==> exists m :: 0 <= m < n && groups[m].tag == fp && Charted(groups[m]))
    && (forall fp :: fp in series ==> |series[fp].buckets| == c.buckets)
    && (forall fp :: fp != "" ==> Entered(series, fp, c).total == GroupSum(groups[..n], Parsed(fp)))
    && (forall fp, i :: 0 <= i < c.buckets && fp != "" ==>
          Entered(series, fp, c).buckets[i] == GroupSum(groups[..n], InBucket(c, i, fp)))
  }

  lemma {:induction false} NothingShown(c: Chart, groups: seq<Group<string>>)
    requires c.Valid()
    ensures Shows(map[], c, groups, 0)
  {
    StartSums(c, groups[..0]);
  }

  lemma {:induction false} AllShown(series: map<string, Entry>, c: Chart, groups: seq<Group<string>>)
    requires c.Valid() && Shows(series, c, groups, |groups|)
    ensures forall fp :: fp in series <==> exists n :: 0 <= n < |groups| && groups[n].tag == fp && Charted(groups[n])
    ensures forall fp :: fp in series ==> |series[fp].buckets| == c.buckets
    ensures forall fp :: fp in series ==> series[fp].total == GroupSum(groups, Parsed(fp))
    ensures forall fp, i :: fp in series && 0 <= i < c.buckets ==>
      series[fp].buckets[i] == GroupSum(groups, InBucket(c, i, fp))
  {
    hide GroupSum, Parsed, InBucket;
    assert groups[..|groups|] == groups;
  }

  lemma {:induction false} EntryLength(series: map<string, Entry>, c: Chart, groups: seq<Group<string>>, n: nat)
    requires c.Valid() && n <= |groups| && Shows(series, c, groups, n)
    ensures forall fp :: fp in series ==> |series[fp].buckets| == c.buckets
  {
  }

  lemma {:induction false} Skipped(series: map<string, Entry>, c: Chart, groups: seq<Group<string>>, n: nat)
    requires c.Valid() && n < |groups| && Shows(series, c, groups, n) && !Charted(groups[n])
    ensures Shows(series, c, groups, n + 1)
  {
    hide GroupSum, Parsed, InBucket, Index;
    GroupSteps(c, groups, n);
  }

  lemma {:induction false} Added(
    before: map<string, Entry>, after: map<string, Entry>, c: Chart, groups: seq<Group<string>>, n: nat)
    requires c.Valid() && n < |groups| && Shows(before, c, groups, n) && Charted(groups[n])
    requires
      var g := groups[n];
      var idx := Index(c, g.key.second);
      var was := Entered(before, g.tag, c);
      && 0 <= idx < c.buckets
      && after == before[g.tag := Entry(was.total + g.n, was.buckets[idx := was.buckets[idx] + g.n])]
    ensures Shows(after, c, groups, n + 1)
  {
    hide GroupSum, Parsed, InBucket, Index;
    GroupSteps(c, groups, n);
    var g := groups[n];
    assert forall fp :: fp != g.tag ==> Entered(after, fp, c) == Entered(before, fp, c);
    assert Entered(after, g.tag, c) == after[g.tag];
  }

  lemma {:induction false} GroupSteps(c: Chart, groups: seq<Group<string>>, n: nat)
    requires c.Valid() && n < |groups|
    ensures
      forall fp :: GroupSum(groups[..n + 1], Parsed(fp))
                == GroupSum(groups[..n], Parsed(fp))
                   + if groups[n].tag == fp && groups[n].key.Time? then groups[n].n else 0
    ensures
      forall i, fp :: GroupSum(groups[..n + 1], InBucket(c, i, fp))
                   == GroupSum(groups[..n], InBucket(c, i, fp))
                      + if groups[n].tag == fp && Falls(c, groups[n].key, i) then groups[n].n else 0
  {
    hide Index, GroupSum;
    forall fp
      ensures GroupSum(groups[..n + 1], Parsed(fp))
           == GroupSum(groups[..n], Parsed(fp)) + if groups[n].tag == fp && groups[n].key.Time? then groups[n].n else 0
    {
      GroupStep(groups, n, Parsed(fp));
    }
    forall i, fp
      ensures GroupSum(groups[..n + 1], InBucket(c, i, fp))
           == GroupSum(groups[..n], InBucket(c, i, fp))
              + if groups[n].tag == fp && Falls(c, groups[n].key, i) then groups[n].n else 0
    {
      GroupStep(groups, n, InBucket(c, i, fp));
    }
  }

  lemma {:induction false} StartSums(c: Chart, groups: seq<Group<string>>)
    requires c.Valid() && groups == []
    ensures forall fp :: GroupSum(groups, Parsed(fp)) == 0
    ensures forall fp, i :: GroupSum(groups, InBucket(c, i, fp)) == 0
  {
  }

  /** A fingerprint's entry; one not met yet is empty. */
  function Entered(series: map<string, Entry>, fp: string, c: Chart): (e: Entry)
    ensures |e.buckets| == c.buckets
  {
    if fp in series && |series[fp].buckets| == c.buckets then series[fp] else Entry(0, seq(c.buckets, _ => 0))
  }

  // ---- Grouping loses nothing ----

  lemma {:induction false} RowSumSplit<T>(rows: seq<Row<T>>, p: Row<T> -> bool, q: Row<T> -> bool, r: Row<T> -> bool)
    requires forall i :: 0 <= i < |rows| ==> p(rows[i]) == (q(rows[i]) || r(rows[i])) && !(q(rows[i]) && r(rows[i]))
    ensures RowSum(rows, p) == RowSum(rows, q) + RowSum(rows, r)
    decreases |rows|
  {
    if rows != [] {
      RowSumSplit(rows[..|rows| - 1], p, q, r);
    }
  }

  lemma {:induction false} RowSumSame<T>(rows: seq<Row<T>>, p: Row<T> -> bool, q: Row<T> -> bool)
    requires forall i :: 0 <= i < |rows| ==> p(rows[i]) == q(rows[i])
    ensures RowSum(rows, p) == RowSum(rows, q)
    decreases |rows|
  {
    if rows != [] {
      RowSumSame(rows[..|rows| - 1], p, q);
    }
  }

  /** The rows of a condition whose group is among the given ones. */
  function Among<T(==)>(groups: seq<Group<T>>, gran: Gran, picks: (Key, T) -> bool): Row<T> -> bool {
    (r: Row<T>) => picks(KeyOf(r.received, gran), r.tag) && Listed(groups, KeyOf(r.received, gran), r.tag)
  }

  function None<T>(): Row<T> -> bool { (r: Row<T>) => false }

  lemma {:induction false} NoneSum<T>(rows: seq<Row<T>>)
    ensures RowSum(rows, None<T>()) == 0
    decreases |rows|
  {
    if rows != [] {
      NoneSum(rows[..|rows| - 1]);
    }
  }

  lemma {:induction false} PrefixSum<T(!new)>(
    groups: seq<Group<T>>, rows: seq<Row<T>>, gran: Gran, picks: (Key, T) -> bool)
    requires Distinct(groups, rows, gran)
    ensures GroupSum(groups, picks) == RowSum(rows, Among(groups, gran, picks))
    decreases |groups|
  {
    hide RowSum, KeyOf;
    if groups == [] {
      NoneSum(rows);
      forall i | 0 <= i < |rows| ensures !Among(groups, gran, picks)(rows[i]) {
        assert !Listed(groups, KeyOf(rows[i].received, gran), rows[i].tag);
      }
      RowSumSame(rows, Among(groups, gran, picks), None<T>());
    } else {
      var n := |groups| - 1;
      var front, g := groups[..n], groups[n];
      PrefixSum(front, rows, gran, picks);
      ListedStep(groups, n);
      var one := if picks(g.key, g.tag) then OfRows(gran, Only(g.key, g.tag)) else None<T>();
      NoneSum(rows);
      forall i | 0 <= i < |rows|
        ensures
          var r := rows[i];
          && Among(groups, gran, picks)(r) == (Among(front, gran, picks)(r) || one(r))
          && !(Among(front, gran, picks)(r) && one(r))
      {
        var key, tag := KeyOf(rows[i].received, gran), rows[i].tag;
        assert Listed(groups, key, tag) <==> Listed(front, key, tag) || (key == g.key && tag == g.tag);
      }
      RowSumSplit(rows, Among(groups, gran, picks), Among(front, gran, picks), one);
    }
  }

  lemma {:induction false} ListedStep<T(!new)>(groups: seq<Group<T>>, n: nat)
    requires |groups| == n + 1
    requires forall i :: 0 <= i < n ==> groups[i].key != groups[n].key || groups[i].tag != groups[n].tag
    ensures forall key, tag ::
      Listed(groups, key, tag) <==> Listed(groups[..n], key, tag) || (key == groups[n].key && tag == groups[n].tag)
    ensures !Listed(groups[..n], groups[n].key, groups[n].tag)
  {
    forall key, tag
      ensures
        Listed(groups, key, tag)
        <==> Listed(groups[..n], key, tag) || (key == groups[n].key && tag == groups[n].tag)
    {
      if Listed(groups, key, tag) {
        var i :| 0 <= i < |groups| && groups[i].key == key && groups[i].tag == tag;
        if i < n {
          assert groups[..n][i] == groups[i];
        }
      }
      if Listed(groups[..n], key, tag) {
        var i :| 0 <= i < n && groups[..n][i].key == key && groups[..n][i].tag == tag;
        assert groups[i] == groups[..n][i];
      }
      if key == groups[n].key && tag == groups[n].tag {
        assert Listed(groups, key, tag);
      }
    }
  }

  /** A sum over groups is the sum over their rows, whatever the order of the groups. */
  lemma {:induction false} GroupsAreRows<T(!new)>(
    groups: seq<Group<T>>, rows: seq<Row<T>>, gran: Gran, picks: (Key, T) -> bool)
    requires Grouped(groups, rows, gran)
    ensures GroupSum(groups, picks) == RowSum(rows, OfRows(gran, picks))
  {
    hide RowSum, GroupSum, KeyOf, Listed;
    PrefixSum(groups, rows, gran, picks);
    forall i | 0 <= i < |rows| ensures Among(groups, gran, picks)(rows[i]) == OfRows(gran, picks)(rows[i]) {
      assert rows[i] in rows;
    }
    RowSumSame(rows, Among(groups, gran, picks), OfRows(gran, picks));
  }

  // ---- Totals ----

  function Sum(ns: seq<int>): int {
    if ns == [] then 0 else Sum(ns[..|ns| - 1]) + ns[|ns| - 1]
  }

  /** Groups in the buckets before the i-th. */
  function UpTo<T(==)>(c: Chart, i: int, tag: T): (Key, T) -> bool
    requires c.bucketS >= 1.0
  {
    (k: Key, t: T) => t == tag && k.Time? && Index(c, k.second) < i
  }

  lemma {:induction false} NextBucket<T>(c: Chart, groups: seq<Group<T>>, i: int, tag: T)
    requires c.Valid()
    ensures
      GroupSum(groups, UpTo(c, i + 1, tag))
      == GroupSum(groups, UpTo(c, i, tag)) + GroupSum(groups, InBucket(c, i, tag))
    decreases |groups|
  {
    hide Index;
    if groups != [] {
      NextBucket(c, groups[..|groups| - 1], i, tag);
    }
  }

  lemma {:induction false} EveryBucket<T>(c: Chart, groups: seq<Group<T>>, tag: T)
    requires c.Valid()
    ensures GroupSum(groups, UpTo(c, 0, tag)) == 0
    ensures GroupSum(groups, UpTo(c, c.buckets, tag)) == GroupSum(groups, Parsed(tag))
    decreases |groups|
  {
    hide Index;
    if groups != [] {
      var n := |groups| - 1;
      EveryBucket(c, groups[..n], tag);
      if groups[n].key.Time? { IndexIs(c, groups[n].key.second); }
    }
  }

  /** Numbers that are the buckets of a tag add up to all its groups. */
  lemma {:induction false} BucketsAddUp<T>(c: Chart, groups: seq<Group<T>>, tag: T, ns: seq<int>)
    requires c.Valid() && |ns| <= c.buckets
    requires forall i :: 0 <= i < |ns| ==> ns[i] == GroupSum(groups, InBucket(c, i, tag))
    ensures Sum(ns) == GroupSum(groups, UpTo(c, |ns|, tag))
    decreases |ns|
  {
    hide GroupSum, UpTo, InBucket;
    if ns == [] {
      EveryBucket(c, groups, tag);
    } else {
      BucketsAddUp(c, groups, tag, ns[..|ns| - 1]);
      NextBucket(c, groups, |ns| - 1, tag);
    }
  }

  /** A chart's buckets add up to the occurrences of the rows that have a time. */
  lemma {:induction false} TotalsKept<T(!new)>(c: Chart, groups: seq<Group<T>>, rows: seq<Row<T>>, tag: T, ns: seq<int>)
    requires c.Valid() && Grouped(groups, rows, c.Gran()) && |ns| == c.buckets
    requires forall i :: 0 <= i < |ns| ==> ns[i] == GroupSum(groups, InBucket(c, i, tag))
    ensures Sum(ns) == GroupSum(groups, Parsed(tag))
    ensures Sum(ns) == RowSum(rows, OfTag(tag))
  {
    hide GroupSum, RowSum, Grouped, Index;
    BucketsAddUp(c, groups, tag, ns);
    EveryBucket(c, groups, tag);
    GroupsAreRows(groups, rows, c.Gran(), Parsed(tag));
    forall i | 0 <= i < |rows| ensures OfRows(c.Gran(), Parsed(tag))(rows[i]) == OfTag(tag)(rows[i]) {
      assert KeyOf(rows[i].received, c.Gran()).Time? == rows[i].received.At?;
    }
    RowSumSame(rows, OfRows(c.Gran(), Parsed(tag)), OfTag(tag));
  }

  /** The rows of a tag that have a time. */
  function OfTag<T(==)>(tag: T): Row<T> -> bool { (r: Row<T>) => r.tag == tag && r.received.At? }

  // ---- Each row's bucket ----

  lemma {:induction false} QuotientAbove(x: real, w: real)
    requires w >= 1.0 && x > -w
    ensures x / w > -1.0 && Truncate(x / w) >= 0
    ensures x >= 0.0 ==> x / w >= 0.0
  {
    var q := x / w;
    assert q * w == x;
    Scaled(q, -1.0, w);
    Scaled(0.0, q, w);
  }

  lemma {:induction false} Scaled(a: real, b: real, w: real)
    requires w > 0.0
    ensures a <= b <==> a * w <= b * w
  {
    if a <= b {
      assert (b - a) * w >= 0.0;
    } else {
      assert (a - b) * w > 0.0;
    }
  }

  /** A selected row's group never starts a whole bucket before the chart: the lower clamp is
      never needed. */
  lemma {:induction false} NoLowerClamp(c: Chart, second: int)
    requires c.Valid() && second >= c.start.Floor
    ensures
      var key := KeyOf(At(second), c.Gran());
      && Truncate((key.second as real - c.start) / c.bucketS) >= 0
      && Truncate((second as real - c.start) / c.bucketS) >= 0
  {
    hide Truncate;
    var key := KeyOf(At(second), c.Gran());
    assert second as real > c.start - 1.0;
    assert key.second as real - c.start > -c.bucketS;
    QuotientAbove(key.second as real - c.start, c.bucketS);
    QuotientAbove(second as real - c.start, c.bucketS);
  }

  lemma {:induction false} QuotientStep(x: real, y: real, w: real)
    requires w >= 60.0 && x <= y < x + 60.0 && x > -w
    ensures Truncate(x / w) <= Truncate(y / w) <= Truncate(x / w) + 1
  {
    var p, q := x / w, y / w;
    DivideMultiply(x, w);
    DivideMultiply(y, w);
    QuotientBound(p, q, w, x, y);
    QuotientAbove(x, w);
    QuotientAbove(y, w);
    TruncateStep(p, q);
  }

  lemma {:induction false} DivideMultiply(x: real, w: real)
    requires w > 0.0
    ensures x / w * w == x
  {
  }

  lemma {:induction false} QuotientBound(p: real, q: real, w: real, x: real, y: real)
    requires w >= 60.0 && x <= y < x + 60.0 && p * w == x && q * w == y
    ensures p <= q < p + 1.0
  {
    Scaled(p, q, w);
    Scaled(p + 1.0, q, w);
    assert (p + 1.0) * w == p * w + w;
  }

  lemma {:induction false} TruncateStep(p: real, q: real)
    requires -1.0 < p <= q < p + 1.0
    ensures Truncate(p) <= Truncate(q) <= Truncate(p) + 1
  {
  }

  /** Grouping by second leaves a row in its own bucket; grouping by minute puts it there or one
      bucket earlier. */
  lemma {:induction false} RowsBucket(c: Chart, second: int)
    requires c.Valid() && second >= c.start.Floor
    ensures
      var key := KeyOf(At(second), c.Gran());
      && key.Time?
      && (c.bucketS < 60.0 ==> Index(c, key.second) == Index(c, second))
      && Index(c, second) - 1 <= Index(c, key.second) <= Index(c, second)
  {
    hide Truncate;
    NoLowerClamp(c, second);
    if c.bucketS >= 60.0 {
      var key := KeyOf(At(second), Minute);
      assert second as real > c.start - 1.0;
      QuotientStep(key.second as real - c.start, second as real - c.start, c.bucketS);
    }
  }

  function Ceiling(x: real): int { -((-x).Floor) }

  lemma {:induction false} IndexAtLeast(c: Chart, t: int, k: nat)
    requires c.Valid() && 1 <= k < c.buckets && t as real - c.start > -c.bucketS
    ensures Index(c, t) >= k <==> t as real >= Boundary(c, k)
  {
    hide Truncate;
    var x := t as real - c.start;
    var q := x / c.bucketS;
    QuotientAbove(x, c.bucketS);
    DivideMultiply(x, c.bucketS);
    TruncateAtLeast(q, k);
    AtLeastTimes(k as real, q, c.bucketS, x);
    assert Index(c, t) == Clamp(Truncate(q), c.buckets);
  }

  lemma {:induction false} AtLeastTimes(k: real, q: real, w: real, x: real)
    requires w > 0.0 && q * w == x
    ensures q >= k <==> x >= k * w
  {
    Scaled(k, q, w);
  }

  lemma {:induction false} TruncateAtLeast(q: real, k: nat)
    requires q > -1.0 && k >= 1
    ensures Truncate(q) >= k <==> q >= k as real
  {
  }

  /** No bucket begins inside a minute. */
  ghost predicate MinutesWhole(c: Chart) {
    forall k: nat :: 1 <= k < c.buckets ==> Ceiling(Boundary(c, k)) % 60 == 0
  }

  lemma {:induction false} MinuteOf(second: int, whole: int)
    requires whole % 60 == 0 && second >= whole
    ensures second - second % 60 >= whole
  {
  }

  lemma {:induction false} CeilingLeast(x: real, n: int)
    ensures n as real >= x <==> n >= Ceiling(x)
  {
  }

  lemma {:induction false} OwnBucket(c: Chart, second: int)
    requires c.Valid() && c.bucketS >= 60.0 && second >= c.start.Floor && MinutesWhole(c)
    ensures Index(c, second - second % 60) == Index(c, second)
  {
    hide Index, Boundary, Ceiling;
    var k, minute := Index(c, second), second - second % 60;
    RowsBucket(c, second);
    IndexIs(c, second);
    IndexIs(c, minute);
    if k >= 1 {
      assert second as real > c.start - 1.0;
      IndexAtLeast(c, second, k);
      CeilingLeast(Boundary(c, k), second);
      MinuteOf(second, Ceiling(Boundary(c, k)));
      CeilingLeast(Boundary(c, k), minute);
      IndexAtLeast(c, minute, k);
    }
  }

  lemma {:induction false} ShiftedRow(c: Chart, k: nat) returns (second: int)
    requires c.Valid() && c.bucketS >= 60.0 && 1 <= k < c.buckets && Ceiling(Boundary(c, k)) % 60 != 0
    ensures second >= c.start.Floor && Index(c, second - second % 60) < Index(c, second)
  {
    hide Index;
    second := Ceiling(Boundary(c, k));
    BoundaryAfterStart(c, k);
    IndexAtLeast(c, second, k);
    IndexAtLeast(c, second - second % 60, k);
  }

  lemma {:induction false} BoundaryAfterStart(c: Chart, k: nat)
    requires c.Valid() && k >= 1
    ensures Boundary(c, k) >= c.start + c.bucketS
  {
    Scaled(1.0, k as real, c.bucketS);
  }

  /** Which charts put every row they can select into the row's own bucket: those with keys of a
      second, and those whose buckets all begin with a minute, to the second. */
  lemma {:induction false} ExactCharts(c: Chart)
    requires c.Valid()
    ensures
      (forall second: int :: second >= c.start.Floor ==>
         Index(c, KeyOf(At(second), c.Gran()).second) == Index(c, second))
      <==> c.bucketS < 60.0 || MinutesWhole(c)
  {
    hide Index;
    if c.bucketS >= 60.0 {
      if MinutesWhole(c) {
        forall second: int | second >= c.start.Floor
          ensures Index(c, KeyOf(At(second), c.Gran()).second) == Index(c, second)
        {
          OwnBucket(c, second);
        }
      } else {
        var k: nat :| 1 <= k < c.buckets && Ceiling(Boundary(c, k)) % 60 != 0;
        var second := ShiftedRow(c, k);
        assert Index(c, KeyOf(At(second), c.Gran()).second) != Index(c, second);
      }
    }
  }

  // ---- The whole chart against bucketing row by row ----

  /** The rows of a tag whose own bucket is before the i-th. */
  function RowsUpTo<T(==)>(c: Chart, i: int, tag: T): Row<T> -> bool
    requires c.bucketS >= 1.0
  {
    (r: Row<T>) => r.tag == tag && r.received.At? && Index(c, r.received.second) < i
  }

  lemma {:induction false} RowSumAtMost<T>(rows: seq<Row<T>>, p: Row<T> -> bool, q: Row<T> -> bool)
    requires forall i :: 0 <= i < |rows| ==> rows[i].occurrences >= 0 && (p(rows[i]) ==> q(rows[i]))
    ensures RowSum(rows, p) <= RowSum(rows, q)
    decreases |rows|
  {
    if rows != [] {
      RowSumAtMost(rows[..|rows| - 1], p, q);
    }
  }

  /** Up to any bucket, the chart counts no less than bucketing row by row and no more than that
      does one bucket later; with keys of a second it counts the same. */
  lemma {:induction false} ChartFollowsRows<T(!new)>(c: Chart, groups: seq<Group<T>>, rows: seq<Row<T>>, tag: T, i: int)
    requires c.Valid() && Grouped(groups, rows, c.Gran()) && Selected(rows, c)
    requires forall r :: r in rows ==> r.occurrences >= 0
    ensures
      var charted := GroupSum(groups, UpTo(c, i, tag));
      && RowSum(rows, RowsUpTo(c, i, tag)) <= charted <= RowSum(rows, RowsUpTo(c, i + 1, tag))
      && (c.bucketS < 60.0 ==> charted == RowSum(rows, RowsUpTo(c, i, tag)))
  {
    hide GroupSum, RowSum, Grouped, Index, KeyOf;
    GroupsAreRows(groups, rows, c.Gran(), UpTo(c, i, tag));
    var charted := OfRows(c.Gran(), UpTo(c, i, tag));
    forall j | 0 <= j < |rows|
      ensures RowsUpTo(c, i, tag)(rows[j]) ==> charted(rows[j])
      ensures charted(rows[j]) ==> RowsUpTo(c, i + 1, tag)(rows[j])
      ensures c.bucketS < 60.0 ==> charted(rows[j]) == RowsUpTo(c, i, tag)(rows[j])
    {
      assert rows[j] in rows;
      match rows[j].received
      case At(second) => RowsBucket(c, second);
      case Malformed(text) => MalformedKey(text, c.Gran());
    }
    RowSumAtMost(rows, RowsUpTo(c, i, tag), charted);
    RowSumAtMost(rows, charted, RowsUpTo(c, i + 1, tag));
    if c.bucketS < 60.0 {
      RowSumSame(rows, charted, RowsUpTo(c, i, tag));
    }
  }

  lemma {:induction false} MalformedKey(text: string, gran: Gran)
    ensures KeyOf(Malformed(text), gran).Unparsed?
  {
  }
}
