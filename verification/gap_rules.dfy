/**
 The gap before a delta interval, the one column of the rate query that reads the previous row without
 asking whether it is tied: when it depends on row ids, and when it does not.
 */
module GapRules {
  import opened Options
  import opened Sql
  import opened CounterRates
  import opened RateRules

  /** gap_seconds, given the time of the previous row. */
  function GapAfter(s: Sample, time: Option<int>): Option<real> {
    if Holds(And(Some(s.stream.temporality == Delta), And(IntLess(Some(0), time), IntLess(time, Some(s.start)))))
    then Some((s.start - time.value) as real / 1000000000.0) else None
  }

  /** The time that LAG carries over to a selected row. */
  function PreviousTime(rows: seq<Row>, r: Row): Option<int>
    requires r in rows
  {
    OrderedMembers(rows, r.sample.stream);
    var o := Ordered(rows, r.sample.stream);
    Lag(o, Locate(o, r)).time
  }

  /** What the query reports for a selected row. */
  function GapOf(rows: seq<Row>, r: Row): Option<real>
    requires r in rows
  {
    GapAfter(r.sample, PreviousTime(rows, r))
  }

  /** The latest time before s in its stream, or None when nothing is earlier. */
  ghost predicate IsLatestEarlier(others: multiset<Sample>, s: Sample, earlier: Option<int>) {
    match earlier
    case None => forall q :: q in others && q.stream == s.stream ==> q.time >= s.time
    case Some(t) =>
      && t < s.time
      && (exists q :: q in others && q.stream == s.stream && q.time == t)
      && forall q :: q in others && q.stream == s.stream && q.time < s.time ==> q.time <= t
  }

  /** No two rows have one id. */
  ghost predicate OwnIds(rows: seq<Row>) {
    forall a, b :: a in rows && b in rows && a.id == b.id ==> a == b
  }

  /** The same points of the stream of r under row ids of their own, with r' in the place of r. */
  ghost predicate IsRenumbering(rows: seq<Row>, r: Row, rows': seq<Row>, r': Row) {
    r' in rows' && r'.sample == r.sample && SameStream(rows, rows', r.sample.stream) && OwnIds(rows')
  }

  ghost predicate FreeOfIds(rows: seq<Row>, r: Row)
    requires r in rows
  {
    forall rows', r' :: IsRenumbering(rows, r, rows', r') ==> GapOf(rows', r') == GapOf(rows, r)
  }

  // ----- Two possible answers -----

  /** The row before a selected one is from its stream and no later; whatever is earlier is no later than that row. */
  lemma BeforeInOrder(rows: seq<Row>, r: Row, o: seq<Row>, i: nat)
    requires At(rows, r, o, i)
    ensures i > 0 ==> var p := o[i - 1].sample; p in Others(rows, r) && p.stream == r.sample.stream && p.time <= r.sample.time
    ensures forall q :: q in Others(rows, r) && q.stream == r.sample.stream && q.time < r.sample.time ==>
      i > 0 && q.time <= o[i - 1].sample.time
  {
    hide Samples, Ordered, Others;
    var s, rest := r.sample, Without(o, i);
    OrderedMembers(rows, s.stream);
    OthersInPartition(rows, r, o, i);
    forall q | q in Others(rows, r) && q.stream == s.stream && q.time < s.time ensures i > 0 && q.time <= o[i - 1].sample.time {
      EarlierThanLag(o, i, q);
    }
    if i > 0 {
      assert rest[i - 1] == o[i - 1];
      SamplesIn(rest, o[i - 1].sample);
    }
  }

  /** LAG carries over the latest earlier time, or for a tied point possibly its own. */
  lemma PreviousIsOneOfTwo(rows: seq<Row>, r: Row, earlier: Option<int>)
    requires r in rows && IsLatestEarlier(Others(rows, r), r.sample, earlier)
    ensures PreviousTime(rows, r) == earlier
      || (PreviousTime(rows, r) == Some(r.sample.time) && !Alone(Others(rows, r), r.sample))
  {
    hide Samples, Ordered, Others, RateOf, OutcomeAt, PriorAt, IsPrior, Agrees;
    var o, i := Located(rows, r);
    BeforeInOrder(rows, r, o, i);
  }

  /** There is always a latest earlier time, or none. */
  lemma LatestEarlierExists(rows: seq<Row>, r: Row) returns (earlier: Option<int>)
    requires r in rows
    ensures IsLatestEarlier(Others(rows, r), r.sample, earlier)
  {
    hide Samples, Ordered, Others, RateOf, RowsWithLow, SameStream;
    var rows', r' := RowsWithLow(rows, r), LowRow(r);
    LowIsRenumbering(rows, r);
    LowIsFirst(rows, r);
    var o, i := Located(rows', r');
    BeforeInOrder(rows', r', o, i);
    earlier := PreviousTime(rows', r');
    SameOthers(rows, r, rows', r');
  }

  lemma SameOthers(rows: seq<Row>, r: Row, rows': seq<Row>, r': Row)
    requires r.sample == r'.sample && SameStream(rows, rows', r.sample.stream)
    ensures forall q: Sample :: q.stream == r.sample.stream ==> (q in Others(rows, r) <==> q in Others(rows', r'))
  {
    OthersInStream(rows, r, rows', r');
  }

  // ----- Both answers are reached -----

  function Numbered(rows: seq<Row>, from: nat): seq<Row> {
    if rows == [] then [] else [Row(from, rows[0].sample)] + Numbered(rows[1..], from + 1)
  }

  lemma {:induction false} NumberedRows(rows: seq<Row>, from: nat)
    ensures Samples(Numbered(rows, from)) == Samples(rows) && |Numbered(rows, from)| == |rows|
    ensures forall k :: 0 <= k < |rows| ==> Numbered(rows, from)[k] == Row(from + k, rows[k].sample)
  {
    if rows != [] {
      NumberedRows(rows[1..], from + 1);
      assert ([Row(from, rows[0].sample)] + Numbered(rows[1..], from + 1))[1..] == Numbered(rows[1..], from + 1);
    }
  }

  /** The rows other than one occurrence of r. */
  function Rest(rows: seq<Row>, r: Row): seq<Row>
    requires r in rows
  {
    Without(rows, Locate(rows, r))
  }

  function LowRow(r: Row): Row {
    Row(0, r.sample)
  }

  /** r gets the lowest id. */
  function RowsWithLow(rows: seq<Row>, r: Row): seq<Row>
    requires r in rows
  {
    [LowRow(r)] + Numbered(Rest(rows, r), 1)
  }

  function HighRow(rows: seq<Row>, r: Row): Row
    requires r in rows
  {
    Row(|Rest(rows, r)| + 1, r.sample)
  }

  /** r gets the highest id. */
  function RowsWithHigh(rows: seq<Row>, r: Row): seq<Row>
    requires r in rows
  {
    [HighRow(rows, r)] + Numbered(Rest(rows, r), 1)
  }

  lemma AnyIdIsRenumbering(rows: seq<Row>, r: Row, id: nat)
    requires r in rows && (id == 0 || id == |Rest(rows, r)| + 1)
    ensures IsRenumbering(rows, r, [Row(id, r.sample)] + Numbered(Rest(rows, r), 1), Row(id, r.sample))
    ensures forall x :: x in Numbered(Rest(rows, r), 1) ==> 1 <= x.id <= |Rest(rows, r)|
  {
    hide Rest;
    var rest := Numbered(Rest(rows, r), 1);
    var rows' := [Row(id, r.sample)] + rest;
    NumberedRows(Rest(rows, r), 1);
    SamplesOfRest(rows, r);
    assert rows'[1..] == rest;
    assert Samples(rows') == Samples(rows);
    NumberedIds(Rest(rows, r));
    OneMoreId(Row(id, r.sample), rest);
  }

  lemma SamplesOfRest(rows: seq<Row>, r: Row)
    requires r in rows
    ensures Samples(rows) == multiset{r.sample} + Samples(Rest(rows, r))
  {
    SamplesWithout(rows, Locate(rows, r));
  }

  lemma NumberedIds(rest: seq<Row>)
    ensures OwnIds(Numbered(rest, 1))
    ensures forall x :: x in Numbered(rest, 1) ==> 1 <= x.id <= |rest|
  {
    hide Numbered, Samples;
    var numbered := Numbered(rest, 1);
    NumberedRows(rest, 1);
    forall a, b | a in numbered && b in numbered && a.id == b.id ensures a == b {
      var j :| 0 <= j < |rest| && numbered[j] == a;
      var k :| 0 <= k < |rest| && numbered[k] == b;
    }
  }

  lemma OneMoreId(r: Row, rest: seq<Row>)
    requires OwnIds(rest) && forall x :: x in rest ==> x.id != r.id
    ensures OwnIds([r] + rest)
  {
    assert forall x :: x in [r] + rest <==> x == r || x in rest;
  }

  lemma LowIsRenumbering(rows: seq<Row>, r: Row)
    requires r in rows
    ensures IsRenumbering(rows, r, RowsWithLow(rows, r), LowRow(r))
  {
    AnyIdIsRenumbering(rows, r, 0);
  }

  lemma HighIsRenumbering(rows: seq<Row>, r: Row)
    requires r in rows
    ensures IsRenumbering(rows, r, RowsWithHigh(rows, r), HighRow(rows, r))
  {
    AnyIdIsRenumbering(rows, r, |Rest(rows, r)| + 1);
  }

  /** Sorted by time and id: nothing comes after something it is before. */
  ghost predicate SortedById(rows: seq<Row>) {
    forall i, j :: 0 <= i < j < |rows| ==> !Before(rows[j], rows[i])
  }

  lemma {:induction false} InsertSortsById(r: Row, sorted: seq<Row>)
    requires SortedById(sorted)
    ensures SortedById(InsertByTime(r, sorted))
  {
    if sorted != [] && !Before(r, sorted[0]) {
      var rest := InsertByTime(r, sorted[1..]);
      InsertSortsById(r, sorted[1..]);
      InsertMembers(r, sorted[1..]);
      forall j | 0 <= j < |rest| ensures !Before(rest[j], sorted[0]) {
        assert rest[j] in rest;
        assert rest[j] == r || exists k :: 0 <= k < |sorted[1..]| && sorted[1..][k] == rest[j];
      }
      assert InsertByTime(r, sorted) == [sorted[0]] + rest;
    }
  }

  lemma {:induction false} SortSortsById(rows: seq<Row>)
    ensures SortedById(SortByTime(rows))
  {
    if rows != [] {
      SortSortsById(rows[1..]);
      InsertSortsById(rows[0], SortByTime(rows[1..]));
    }
  }

  lemma {:induction false} LocateIsFirst(rows: seq<Row>, r: Row)
    requires r in rows
    ensures forall k :: 0 <= k < Locate(rows, r) ==> rows[k] != r
  {
    if rows[0] != r {
      LocateIsFirst(rows[1..], r);
      forall k | 0 <= k < Locate(rows, r) ensures rows[k] != r {
        assert k > 0 ==> rows[k] == rows[1..][k - 1];
      }
    }
  }

  /** Where the query finds r: the first place, with nothing out of order around it. */
  lemma FoundFirst(rows: seq<Row>, r: Row) returns (o: seq<Row>, i: nat)
    requires r in rows
    ensures At(rows, r, o, i) && i == Locate(o, r) && PreviousTime(rows, r) == Lag(o, i).time
    ensures forall k :: 0 <= k < i ==> o[k] in rows && o[k] != r && !Before(r, o[k])
    ensures forall k :: i < k < |o| ==> o[k] in rows && !Before(o[k], r)
  {
    hide Samples, RateOf;
    o, i := Located(rows, r);
    OrderedMembers(rows, r.sample.stream);
    SortSortsById(Partition(rows, r.sample.stream));
    LocateIsFirst(o, r);
  }

  /** With the lowest id a row comes first among those of its time. */
  lemma LowIsFirst(rows: seq<Row>, r: Row)
    requires r in rows
    ensures LowRow(r) in RowsWithLow(rows, r) && PreviousTime(RowsWithLow(rows, r), LowRow(r)) != Some(r.sample.time)
  {
    hide Samples, Ordered, RateOf, Numbered, Rest, PreviousTime;
    AnyIdIsRenumbering(rows, r, 0);
    var o, i := FoundFirst(RowsWithLow(rows, r), LowRow(r));
    if i > 0 {
      assert o[i - 1] in Numbered(Rest(rows, r), 1);
    }
  }

  /** With the highest id a tied row comes right after another of its time. */
  lemma HighIsTied(rows: seq<Row>, r: Row)
    requires r in rows && !Alone(Others(rows, r), r.sample)
    ensures HighRow(rows, r) in RowsWithHigh(rows, r)
    ensures PreviousTime(RowsWithHigh(rows, r), HighRow(rows, r)) == Some(r.sample.time)
  {
    hide Samples, Ordered, Others, RateOf, Numbered, Rest, PreviousTime;
    var rows', r' := RowsWithHigh(rows, r), HighRow(rows, r);
    AnyIdIsRenumbering(rows, r, |Rest(rows, r)| + 1);
    AloneInStream(rows, r, rows', r');
    var o, i := FoundFirst(rows', r');
    var x := TiedRow(rows', r', o, i);
    var k: nat :| k < |o| && k != i && o[k] == x;
    assert r' !in Numbered(Rest(rows, r), 1);
    OccursOnce(Numbered(Rest(rows, r), 1), r', o, i, k);
    BeforeInOrder(rows', r', o, i);
    SortedTimes(rows', r', o);
    assert x in Numbered(Rest(rows, r), 1);
    assert k < i;
  }

  lemma {:induction false} PartitionAtMost(rows: seq<Row>, stream: Stream, x: Row)
    ensures multiset(Partition(rows, stream))[x] <= multiset(rows)[x]
  {
    if rows != [] {
      PartitionAtMost(rows[1..], stream, x);
      assert rows == [rows[0]] + rows[1..];
    }
  }

  /** A row that is not among the rest of the rows has one place in the order. */
  lemma OccursOnce(rest: seq<Row>, r: Row, o: seq<Row>, i: nat, k: nat)
    requires r !in rest && At([r] + rest, r, o, i) && k < |o| && k != i
    ensures o[k] != r
  {
    hide Partition, SortByTime;
    PartitionAtMost([r] + rest, r.sample.stream, r);
    SortPermutes(Partition([r] + rest, r.sample.stream));
    assert multiset(o)[r] <= 1;
    if i < k { TwoPlaces(o, i, k); } else { TwoPlaces(o, k, i); }
  }

  lemma TwoPlaces(o: seq<Row>, a: nat, b: nat)
    requires a < b < |o|
    ensures o[a] == o[b] ==> multiset(o)[o[a]] >= 2
  {
    assert o == o[..b] + o[b..];
    assert o[a] in o[..b] && o[b] in o[b..];
  }

  lemma SortedTimes(rows: seq<Row>, r: Row, o: seq<Row>)
    requires o == Ordered(rows, r.sample.stream)
    ensures Sorted(o)
  {
    OrderedMembers(rows, r.sample.stream);
  }

  /** A tied point has another row of its stream at its time. */
  lemma TiedRow(rows: seq<Row>, r: Row, o: seq<Row>, i: nat) returns (x: Row)
    requires At(rows, r, o, i) && !Alone(Others(rows, r), r.sample)
    ensures x.sample.time == r.sample.time && exists k :: 0 <= k < |o| && k != i && o[k] == x
  {
    hide Samples, Ordered, Others;
    OthersInPartition(rows, r, o, i);
    var q :| q in Others(rows, r) && q.stream == r.sample.stream && q.time == r.sample.time;
    var rest := Without(o, i);
    SamplesIn(rest, q);
    x :| x in rest && x.sample == q;
    var j :| 0 <= j < |rest| && rest[j] == x;
    assert o[if j < i then j else j + 1] == x;
  }

  /** Both gaps of a tied point are reached: from the latest earlier time under the lowest id, from its own under the highest. */
  lemma BothAreReached(rows: seq<Row>, r: Row, earlier: Option<int>)
    requires r in rows && IsLatestEarlier(Others(rows, r), r.sample, earlier) && !Alone(Others(rows, r), r.sample)
    ensures IsRenumbering(rows, r, RowsWithLow(rows, r), LowRow(r)) && IsRenumbering(rows, r, RowsWithHigh(rows, r), HighRow(rows, r))
    ensures GapOf(RowsWithLow(rows, r), LowRow(r)) == GapAfter(r.sample, earlier)
    ensures GapOf(RowsWithHigh(rows, r), HighRow(rows, r)) == GapAfter(r.sample, Some(r.sample.time))
  {
    hide Samples, Others, PreviousTime, GapAfter, RowsWithLow, RowsWithHigh, SameStream;
    LowIsRenumbering(rows, r);
    Renumbered(rows, r, RowsWithLow(rows, r), LowRow(r), earlier);
    LowIsFirst(rows, r);
    HighIsRenumbering(rows, r);
    HighIsTied(rows, r);
  }

  /**
   The gap of a point is the same under all row ids exactly when the point is alone at its time, or the
   gap from the latest earlier time and the gap from its own time are the same.
   */
  lemma GapRule(rows: seq<Row>, r: Row, earlier: Option<int>)
    requires r in rows && IsLatestEarlier(Others(rows, r), r.sample, earlier)
    ensures FreeOfIds(rows, r)
      <==> Alone(Others(rows, r), r.sample) || GapAfter(r.sample, earlier) == GapAfter(r.sample, Some(r.sample.time))
  {
    hide Samples, Others, PreviousTime, GapAfter, RowsWithLow, RowsWithHigh, SameStream;
    var s := r.sample;
    PreviousIsOneOfTwo(rows, r, earlier);
    if Alone(Others(rows, r), s) || GapAfter(s, earlier) == GapAfter(s, Some(s.time)) {
      forall rows', r' | IsRenumbering(rows, r, rows', r') ensures GapOf(rows', r') == GapOf(rows, r) {
        Renumbered(rows, r, rows', r', earlier);
      }
    } else {
      BothAreReached(rows, r, earlier);
      assert GapOf(RowsWithLow(rows, r), LowRow(r)) != GapOf(RowsWithHigh(rows, r), HighRow(rows, r));
    }
  }

  lemma Renumbered(rows: seq<Row>, r: Row, rows': seq<Row>, r': Row, earlier: Option<int>)
    requires IsLatestEarlier(Others(rows, r), r.sample, earlier) && IsRenumbering(rows, r, rows', r')
    ensures IsLatestEarlier(Others(rows', r'), r.sample, earlier)
    ensures PreviousTime(rows', r') == earlier
      || (PreviousTime(rows', r') == Some(r.sample.time) && !Alone(Others(rows, r), r.sample))
  {
    hide Samples, Others, PreviousTime, SameStream;
    SameOthers(rows, r, rows', r');
    AloneInStream(rows, r, rows', r');
    PreviousIsOneOfTwo(rows', r', earlier);
  }

  /**
   The gap of a point alone at its time: the seconds from the latest earlier time to its start, for a delta
   whose stream has an earlier time, later than zero and before that start.
   */
  lemma GapValue(rows: seq<Row>, r: Row, earlier: Option<int>)
    requires r in rows && IsLatestEarlier(Others(rows, r), r.sample, earlier) && Alone(Others(rows, r), r.sample)
    ensures GapOf(rows, r).Some? <==> r.sample.stream.temporality == Delta && earlier.Some? && 0 < earlier.value < r.sample.start
    ensures GapOf(rows, r).Some? ==> GapOf(rows, r).value * 1000000000.0 == (r.sample.start - earlier.value) as real
  {
    hide Others, PreviousTime, IsLatestEarlier, Alone;
    PreviousIsOneOfTwo(rows, r, earlier);
  }

  /** For a point that does not end before it starts, a tie matters only to a delta with an earlier point that ends before its start. */
  lemma GapRuleOfIntervals(rows: seq<Row>, r: Row, earlier: Option<int>)
    requires r in rows && r.sample.start <= r.sample.time && IsLatestEarlier(Others(rows, r), r.sample, earlier)
    ensures FreeOfIds(rows, r)
      <==> Alone(Others(rows, r), r.sample) || r.sample.stream.temporality != Delta
             || !(earlier.Some? && 0 < earlier.value < r.sample.start)
  {
    hide FreeOfIds, Alone, Others, GapAfter;
    GapRule(rows, r, earlier);
    SameGaps(r.sample, earlier);
  }

  lemma SameGaps(s: Sample, earlier: Option<int>)
    requires s.start <= s.time
    ensures GapAfter(s, earlier) == GapAfter(s, Some(s.time))
      <==> s.stream.temporality != Delta || !(earlier.Some? && 0 < earlier.value < s.start)
  {
  }
}
