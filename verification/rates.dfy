/**
 The counter-rate query: a window over each OTLP stream ordered by (time, id), a LAG of the
 previous point, and a CASE over SQL three-valued logic. The pipeline is executable; the rules
 it must obey are stated on the multiset of the other points, where row ids do not exist.
 */
module CounterRates {
  import opened Options
  import opened Sql

  // ----- SQL values: None is NULL -----

  function IntLess(a: Option<int>, b: Option<int>): Tri {
    if a.Some? && b.Some? then Some(a.value < b.value) else None
  }

  function IntDiffers(a: Option<int>, b: Option<int>): Tri {
    if a.Some? && b.Some? then Some(a.value != b.value) else None
  }

  function RealLess(a: Option<real>, b: Option<real>): Tri {
    if a.Some? && b.Some? then Some(a.value < b.value) else None
  }

  function Minus(a: Option<real>, b: Option<real>): Option<real> {
    if a.Some? && b.Some? then Some(a.value - b.value) else None
  }

  function Divide(a: Option<real>, b: Option<real>): Option<real> {
    if a.Some? && b.Some? && b.value != 0.0 then Some(a.value / b.value) else None
  }

  function Bit0(flags: Option<nat>): Option<int> {
    if flags.Some? then Some(flags.value % 2) else None
  }

  // ----- Rows of the selected window -----

  datatype MetricType = Gauge | Sum | Histogram | ExponentialHistogram | Summary

  datatype Temporality = Delta | Cumulative | Unspecified

  /** The columns of seriesIdentity; labels stands for the text columns. */
  datatype StreamColumns = StreamColumns(labels: seq<string>, metricType: MetricType, temporality: Temporality, monotonic: Option<int>)

  /** The projection fills monotonic for sums, and leaves it NULL for every other type. */
  type Stream = s: StreamColumns | s.monotonic.Some? <==> s.metricType == Sum
    witness StreamColumns([], Gauge, Unspecified, None)

  /** A stored point without its row id. */
  datatype Sample = Sample(stream: Stream, time: int, start: int,
                           numberInt: Option<int>, numberDouble: Option<real>, flags: nat)

  datatype Row = Row(id: int, sample: Sample)

  function Value(s: Sample): Option<real> {
    if s.numberInt.Some? then Some(s.numberInt.value as real) else s.numberDouble
  }

  // ----- The pipeline -----

  function Partition(rows: seq<Row>, stream: Stream): seq<Row> {
    if rows == [] then []
    else (if rows[0].sample.stream == stream then [rows[0]] else []) + Partition(rows[1..], stream)
  }

  predicate Before(a: Row, b: Row) {
    a.sample.time < b.sample.time || (a.sample.time == b.sample.time && a.id < b.id)
  }

  function InsertByTime(r: Row, sorted: seq<Row>): seq<Row> {
    if sorted == [] || Before(r, sorted[0]) then [r] + sorted
    else [sorted[0]] + InsertByTime(r, sorted[1..])
  }

  function SortByTime(rows: seq<Row>): seq<Row> {
    if rows == [] then [] else InsertByTime(rows[0], SortByTime(rows[1..]))
  }

  function Ordered(rows: seq<Row>, stream: Stream): seq<Row> {
    SortByTime(Partition(rows, stream))
  }

  /** COUNT(*) OVER (PARTITION BY stream, time). */
  function SameTime(partition: seq<Row>, time: int): nat {
    if partition == [] then 0
    else (if partition[0].sample.time == time then 1 else 0) + SameTime(partition[1..], time)
  }

  /** The columns that LAG carries over from the previous row. */
  datatype Lagged = Lagged(time: Option<int>, start: Option<int>, value: Option<real>, flags: Option<nat>, sameTime: Option<int>)

  function Lag(ordered: seq<Row>, i: nat): Lagged
    requires i < |ordered|
  {
    if i == 0 then Lagged(None, None, None, None, None)
    else
      var p := ordered[i - 1].sample;
      Lagged(Some(p.time), Some(p.start), Value(p), Some(p.flags), Some(SameTime(ordered, p.time)))
  }

  datatype Reason =
    | NotMonotonicSum | UnspecifiedTemporality | NoRecordedValue | MissingOrNonfiniteValue
    | NegativeMonotonicSum | MissingTimestamp | InvalidInterval | AmbiguousTimestamp
    | ZeroDuration | OverlappingInterval | NoBaseline | AmbiguousBaseline
    | Reset | InvalidBaseline | CounterDecreased

  function Check(s: Sample, sameTime: int, prev: Lagged): Option<Reason> {
    var delta := Some(s.stream.temporality == Delta);
    var cumulative := Some(s.stream.temporality == Cumulative);
    var value := Value(s);
    if Holds(Or(Some(s.stream.metricType != Sum), IntDiffers(s.stream.monotonic, Some(1)))) then Some(NotMonotonicSum)
    else if s.stream.temporality !in {Delta, Cumulative} then Some(UnspecifiedTemporality)
    else if s.flags % 2 != 0 then Some(NoRecordedValue)
    else if value.None? then Some(MissingOrNonfiniteValue)
    else if Holds(RealLess(value, Some(0.0))) then Some(NegativeMonotonicSum)
    else if s.time == 0 || s.start == 0 then Some(MissingTimestamp)
    else if s.start > s.time then Some(InvalidInterval)
    else if sameTime > 1 then Some(AmbiguousTimestamp)
    else if s.start == s.time then Some(ZeroDuration)
    else if Holds(And(delta, IntLess(Some(s.start), prev.time))) then Some(OverlappingInterval)
    else if Holds(And(cumulative, Some(prev.time.None?))) then Some(NoBaseline)
    else if Holds(And(cumulative, IntLess(Some(1), prev.sameTime))) then Some(AmbiguousBaseline)
    else if Holds(And(cumulative, Or(Some(prev.value.None?),
                                     Or(RealLess(prev.value, Some(0.0)), IntDiffers(Bit0(prev.flags), Some(0)))))) then Some(NoBaseline)
    else if Holds(And(cumulative, IntDiffers(prev.start, Some(s.start)))) then Some(Reset)
    else if Holds(And(cumulative, IntLess(prev.time, Some(s.start)))) then Some(InvalidBaseline)
    else if Holds(And(cumulative, RealLess(value, prev.value))) then Some(CounterDecreased)
    else None
  }

  datatype Outcome = Outcome(reason: Option<Reason>, intervalStart: Option<int>, delta: Option<real>, rate: Option<real>)

  function Calculate(s: Sample, sameTime: int, prev: Lagged): Outcome {
    var reason := Check(s, sameTime, prev);
    var from := if reason.Some? then None else if s.stream.temporality == Delta then Some(s.start) else prev.time;
    var delta := if reason.Some? then None
                 else if s.stream.temporality == Delta then Value(s) else Minus(Value(s), prev.value);
    var seconds := if from.Some? then Some((s.time - from.value) as real / 1000000000.0) else None;
    Outcome(reason, from, delta, Divide(delta, seconds))
  }

  /** The result row for position i of an ordered partition. */
  function OutcomeAt(ordered: seq<Row>, i: nat): Outcome
    requires i < |ordered|
  {
    Calculate(ordered[i].sample, SameTime(ordered, ordered[i].sample.time), Lag(ordered, i))
  }

  function Locate(rows: seq<Row>, r: Row): (i: nat)
    requires r in rows
    ensures i < |rows| && rows[i] == r
  {
    if rows[0] == r then 0 else 1 + Locate(rows[1..], r)
  }

  /** What the query reports for a selected row. */
  function RateOf(rows: seq<Row>, r: Row): Outcome
    requires r in rows
  {
    OrderedMembers(rows, r.sample.stream);
    OutcomeAt(Ordered(rows, r.sample.stream), Locate(Ordered(rows, r.sample.stream), r))
  }

  // ----- The declarative rule, over the multiset of the other points -----

  function Samples(rows: seq<Row>): multiset<Sample> {
    if rows == [] then multiset{} else multiset{rows[0].sample} + Samples(rows[1..])
  }

  function Others(rows: seq<Row>, r: Row): multiset<Sample> {
    Samples(rows) - multiset{r.sample}
  }

  /** Everything a rate needs from the point itself. */
  predicate Valid(s: Sample) {
    && s.stream.metricType == Sum && s.stream.monotonic == Some(1)
    && s.flags % 2 == 0
    && Value(s).Some? && Value(s).value >= 0.0
    && s.time != 0 && s.start != 0 && s.start <= s.time
  }

  ghost predicate Alone(others: multiset<Sample>, s: Sample) {
    forall q :: q in others && q.stream == s.stream ==> q.time != s.time
  }

  /** The latest earlier time of the stream holds exactly one point, and it is b. */
  ghost predicate IsBaseline(others: multiset<Sample>, s: Sample, b: Sample) {
    && b in others && b.stream == s.stream && b.time < s.time
    && forall q :: q in others - multiset{b} && q.stream == s.stream && q.time < s.time ==> q.time < b.time
  }

  predicate Usable(b: Sample, s: Sample)
    requires Value(s).Some?
  {
    && b.flags % 2 == 0
    && Value(b).Some? && 0.0 <= Value(b).value <= Value(s).value
    && b.start == s.start <= b.time
  }

  ghost predicate CumulativeRated(others: multiset<Sample>, s: Sample) {
    && Valid(s) && Alone(others, s)
    && exists b :: IsBaseline(others, s, b) && Usable(b, s)
  }

  ghost predicate DeltaRated(others: multiset<Sample>, s: Sample) {
    && Valid(s) && Alone(others, s) && s.start < s.time
    && forall q :: q in others && q.stream == s.stream && q.time < s.time ==> q.time <= s.start
  }

  /** What a point can learn from the rest of its stream: the LAG row with its row id forgotten. */
  datatype Prior = Nothing | Tied(time: int) | One(sample: Sample)

  ghost predicate IsPrior(others: multiset<Sample>, s: Sample, prior: Prior) {
    match prior
    case Nothing => forall q :: q in others && q.stream == s.stream ==> q.time >= s.time
    case One(b) => IsBaseline(others, s, b)
    case Tied(t) =>
      && t < s.time
      && (exists a, b :: a in others && b in others - multiset{a} && a.stream == b.stream == s.stream && a.time == b.time == t)
      && forall q :: q in others && q.stream == s.stream && q.time < s.time ==> q.time <= t
  }

  lemma PriorIsUnique(others: multiset<Sample>, s: Sample, p: Prior, p': Prior)
    requires IsPrior(others, s, p) && IsPrior(others, s, p')
    ensures p == p'
  {
    if p != p' {
      if p.One? {
        BaselineIsOnlyPrior(others, s, p.sample, p');
      } else if p'.One? {
        BaselineIsOnlyPrior(others, s, p'.sample, p);
      }
    }
  }

  lemma BaselineIsOnlyPrior(others: multiset<Sample>, s: Sample, b: Sample, p: Prior)
    requires IsBaseline(others, s, b) && p != One(b)
    ensures !IsPrior(others, s, p)
  {
    if p.One? {
      var c := p.sample;
      assert c in others ==> c in others - multiset{b};
      assert b in others - multiset{c};
    } else if p.Tied? {
      forall x, y | x in others && y in others - multiset{x} && x.stream == y.stream == s.stream && x.time == y.time == p.time < s.time
        ensures p.time < b.time
      {
        assert x in others - multiset{b} || y in others - multiset{b};
      }
    }
  }

  // ----- Sorting and partitioning keep the points -----

  ghost predicate Sorted(rows: seq<Row>) {
    forall i, j :: 0 <= i < j < |rows| ==> rows[i].sample.time <= rows[j].sample.time
  }

  lemma {:induction false} InsertPermutes(r: Row, sorted: seq<Row>)
    ensures multiset(InsertByTime(r, sorted)) == multiset{r} + multiset(sorted)
  {
    if sorted != [] && !Before(r, sorted[0]) {
      InsertPermutes(r, sorted[1..]);
      assert sorted == [sorted[0]] + sorted[1..];
    }
  }

  lemma {:induction false} InsertKeepsSamples(r: Row, sorted: seq<Row>)
    ensures Samples(InsertByTime(r, sorted)) == multiset{r.sample} + Samples(sorted)
  {
    if sorted == [] || Before(r, sorted[0]) {
      assert ([r] + sorted)[1..] == sorted;
    } else {
      var rest := InsertByTime(r, sorted[1..]);
      InsertKeepsSamples(r, sorted[1..]);
      assert ([sorted[0]] + rest)[1..] == rest;
    }
  }

  lemma InsertMembers(r: Row, sorted: seq<Row>)
    ensures forall x :: x in InsertByTime(r, sorted) <==> x == r || x in sorted
  {
    InsertPermutes(r, sorted);
    forall x ensures x in InsertByTime(r, sorted) <==> x == r || x in sorted {
      assert x in InsertByTime(r, sorted) <==> x in multiset(InsertByTime(r, sorted));
    }
  }

  lemma {:induction false} InsertSorts(r: Row, sorted: seq<Row>)
    requires Sorted(sorted)
    ensures Sorted(InsertByTime(r, sorted))
  {
    if sorted != [] && !Before(r, sorted[0]) {
      var rest := InsertByTime(r, sorted[1..]);
      InsertSorts(r, sorted[1..]);
      InsertMembers(r, sorted[1..]);
      forall j | 0 <= j < |rest| ensures sorted[0].sample.time <= rest[j].sample.time {
        assert rest[j] in rest;
      }
      assert InsertByTime(r, sorted) == [sorted[0]] + rest;
    }
  }

  lemma {:induction false} SortSorts(rows: seq<Row>)
    ensures Sorted(SortByTime(rows))
  {
    if rows != [] {
      SortSorts(rows[1..]);
      InsertSorts(rows[0], SortByTime(rows[1..]));
    }
  }

  lemma {:induction false} SortPermutes(rows: seq<Row>)
    ensures multiset(SortByTime(rows)) == multiset(rows)
  {
    hide InsertByTime;
    if rows != [] {
      SortPermutes(rows[1..]);
      InsertPermutes(rows[0], SortByTime(rows[1..]));
      assert rows == [rows[0]] + rows[1..];
    }
  }

  lemma {:induction false} SortKeepsSamples(rows: seq<Row>)
    ensures Samples(SortByTime(rows)) == Samples(rows)
  {
    hide InsertByTime;
    if rows != [] {
      SortKeepsSamples(rows[1..]);
      InsertKeepsSamples(rows[0], SortByTime(rows[1..]));
    }
  }

  lemma {:induction false} PartitionKeeps(rows: seq<Row>, stream: Stream)
    ensures forall r :: r in Partition(rows, stream) <==> r in rows && r.sample.stream == stream
    ensures forall q: Sample :: Samples(Partition(rows, stream))[q] == if q.stream == stream then Samples(rows)[q] else 0
  {
    if rows != [] {
      PartitionKeeps(rows[1..], stream);
      var rest := Partition(rows[1..], stream);
      assert rows == [rows[0]] + rows[1..];
      if rows[0].sample.stream == stream {
        assert ([rows[0]] + rest)[1..] == rest;
        assert Samples(Partition(rows, stream)) == multiset{rows[0].sample} + Samples(rest);
      } else {
        assert Partition(rows, stream) == rest;
      }
    }
  }

  lemma OrderedMembers(rows: seq<Row>, stream: Stream)
    ensures Sorted(Ordered(rows, stream))
    ensures forall r :: r in Ordered(rows, stream) <==> r in rows && r.sample.stream == stream
    ensures forall q: Sample :: Samples(Ordered(rows, stream))[q] == if q.stream == stream then Samples(rows)[q] else 0
  {
    var p := Partition(rows, stream);
    PartitionKeeps(rows, stream);
    SortSorts(p);
    SortPermutes(p);
    SortKeepsSamples(p);
    forall r ensures r in Ordered(rows, stream) <==> r in rows && r.sample.stream == stream {
      assert r in multiset(SortByTime(p)) <==> r in multiset(p);
    }
  }

  // ----- From the ordered partition to the multiset of the others -----

  function Without(rows: seq<Row>, i: nat): seq<Row>
    requires i < |rows|
  {
    rows[..i] + rows[i + 1..]
  }

  lemma {:induction false} SamplesIn(rows: seq<Row>, q: Sample)
    ensures q in Samples(rows) <==> exists x :: x in rows && x.sample == q
  {
    if rows != [] {
      SamplesIn(rows[1..], q);
      assert forall x :: x in rows <==> x == rows[0] || x in rows[1..];
    }
  }

  lemma {:induction false} SamplesWithout(rows: seq<Row>, i: nat)
    requires i < |rows|
    ensures Samples(rows) == multiset{rows[i].sample} + Samples(Without(rows, i))
  {
    if i == 0 {
      assert Without(rows, 0) == rows[1..];
    } else {
      SamplesWithout(rows[1..], i - 1);
      assert Without(rows, i)[1..] == Without(rows[1..], i - 1);
    }
  }

  lemma {:induction false} SameTimeCounts(rows: seq<Row>, t: int)
    ensures SameTime(rows, t) == 0 <==> forall x :: x in rows ==> x.sample.time != t
  {
    if rows != [] {
      SameTimeCounts(rows[1..], t);
      assert forall x :: x in rows <==> x == rows[0] || x in rows[1..];
    }
  }

  lemma {:induction false} SameTimeWithout(rows: seq<Row>, i: nat, t: int)
    requires i < |rows|
    ensures SameTime(rows, t) == (if rows[i].sample.time == t then 1 else 0) + SameTime(Without(rows, i), t)
  {
    if i == 0 {
      assert Without(rows, 0) == rows[1..];
    } else {
      SameTimeWithout(rows[1..], i - 1, t);
      assert Without(rows, i)[1..] == Without(rows[1..], i - 1);
    }
  }

  /** r sits at position i of its ordered partition o. */
  ghost predicate At(rows: seq<Row>, r: Row, o: seq<Row>, i: nat) {
    r in rows && o == Ordered(rows, r.sample.stream) && i < |o| && o[i] == r
  }

  /** Within the stream, the others are the samples of the partition without position i. */
  lemma OthersInPartition(rows: seq<Row>, r: Row, o: seq<Row>, i: nat)
    requires At(rows, r, o, i)
    ensures forall q: Sample :: q.stream == r.sample.stream ==> Others(rows, r)[q] == Samples(Without(o, i))[q]
    ensures forall x :: x in Without(o, i) ==> x.sample.stream == r.sample.stream
  {
    RestInStream(rows, r, o, i);
    SamplesWithout(o, i);
    forall q: Sample | q.stream == r.sample.stream ensures Others(rows, r)[q] == Samples(Without(o, i))[q] {
      OrderedMembers(rows, r.sample.stream);
    }
  }

  lemma RestInStream(rows: seq<Row>, r: Row, o: seq<Row>, i: nat)
    requires At(rows, r, o, i)
    ensures forall x :: x in Without(o, i) ==> x.sample.stream == r.sample.stream
  {
    OrderedMembers(rows, r.sample.stream);
    forall x | x in Without(o, i) ensures x in o {
    }
  }

  lemma AloneByCount(rows: seq<Row>, r: Row, o: seq<Row>, i: nat)
    requires At(rows, r, o, i)
    ensures Alone(Others(rows, r), r.sample) <==> SameTime(o, r.sample.time) == 1
    ensures SameTime(o, r.sample.time) >= 1
  {
    OthersInPartition(rows, r, o, i);
    var rest := Without(o, i);
    var t := r.sample.time;
    SameTimeWithout(o, i, t);
    SameTimeCounts(rest, t);
    if Alone(Others(rows, r), r.sample) {
      forall x | x in rest ensures x.sample.time != t {
        SamplesIn(rest, x.sample);
      }
    } else {
      var q :| q in Others(rows, r) && q.stream == r.sample.stream && q.time == t;
      SamplesIn(rest, q);
    }
  }

  function PriorAt(o: seq<Row>, i: nat): Prior
    requires i < |o|
  {
    if i == 0 then Nothing
    else if SameTime(o, o[i - 1].sample.time) > 1 then Tied(o[i - 1].sample.time)
    else One(o[i - 1].sample)
  }

  /** In a sorted partition, a point at an earlier time comes no later than the LAG row. */
  lemma EarlierThanLag(o: seq<Row>, i: nat, q: Sample)
    requires Sorted(o) && i < |o|
    requires q in Samples(Without(o, i)) && q.time < o[i].sample.time
    ensures i > 0 && q.time <= o[i - 1].sample.time
  {
    hide Samples;
    SamplesIn(Without(o, i), q);
    var x :| x in Without(o, i) && x.sample == q;
    assert x in o;
    var k :| 0 <= k < |o| && o[k] == x;
    assert k < i;
  }

  /** The LAG row of a point that is alone at its time is at an earlier time. */
  lemma LagIsEarlier(rows: seq<Row>, r: Row, o: seq<Row>, i: nat)
    requires At(rows, r, o, i) && i > 0 && Alone(Others(rows, r), r.sample)
    ensures var p := o[i - 1].sample; p in Others(rows, r) && p.stream == r.sample.stream && p.time < r.sample.time
  {
    OrderedMembers(rows, r.sample.stream);
    OthersInPartition(rows, r, o, i);
    var rest := Without(o, i);
    assert rest[i - 1] == o[i - 1];
    SamplesIn(rest, o[i - 1].sample);
  }

  lemma LagMeetsPrior(rows: seq<Row>, r: Row, o: seq<Row>, i: nat)
    requires At(rows, r, o, i) && Alone(Others(rows, r), r.sample)
    ensures IsPrior(Others(rows, r), r.sample, PriorAt(o, i))
  {
    var others, s := Others(rows, r), r.sample;
    OrderedMembers(rows, s.stream);
    OthersInPartition(rows, r, o, i);
    forall q | q in others && q.stream == s.stream && q.time < s.time ensures i > 0 && q.time <= o[i - 1].sample.time {
      EarlierThanLag(o, i, q);
    }
    if i > 0 {
      LagIsEarlier(rows, r, o, i);
      LagTiedOrNot(rows, r, o, i);
    }
  }

  /** A position of the partition is tied exactly when another position has its time. */
  lemma TiedByCount(rest: seq<Row>, j: nat)
    requires j < |rest|
    ensures SameTime(rest, rest[j].sample.time) == 1
      <==> forall b :: b in Samples(Without(rest, j)) ==> b.time != rest[j].sample.time
  {
    var rest2, t := Without(rest, j), rest[j].sample.time;
    SameTimeWithout(rest, j, t);
    SameTimeCounts(rest2, t);
    forall b ensures b in Samples(rest2) <==> exists x :: x in rest2 && x.sample == b {
      SamplesIn(rest2, b);
    }
    forall x | x in rest2 ensures x.sample in Samples(rest2) {
      SamplesIn(rest2, x.sample);
    }
  }

  lemma LagTiedOrNot(rows: seq<Row>, r: Row, o: seq<Row>, i: nat)
    requires At(rows, r, o, i) && i > 0 && Alone(Others(rows, r), r.sample)
    ensures var p := o[i - 1].sample;
      SameTime(o, p.time) <= 1 <==>
      forall b :: b in Others(rows, r) - multiset{p} && b.stream == r.sample.stream ==> b.time != p.time
  {
    hide Others, Samples, Ordered;
    var others, p, rest := Others(rows, r), o[i - 1].sample, Without(o, i);
    LagIsEarlier(rows, r, o, i);
    OthersInPartition(rows, r, o, i);
    SameTimeWithout(o, i, p.time);
    SameTimeWithout(rest, i - 1, p.time);
    TiedByCount(rest, i - 1);
    SamplesWithout(rest, i - 1);
    RestOfStream(rest, i - 1, r.sample.stream);
    assert forall q: Sample :: q.stream == r.sample.stream ==> (others - multiset{p})[q] == Samples(Without(rest, i - 1))[q];
  }

  lemma RestOfStream(rest: seq<Row>, j: nat, stream: Stream)
    requires j < |rest| && forall x :: x in rest ==> x.sample.stream == stream
    ensures forall q :: q in Samples(Without(rest, j)) ==> q.stream == stream
  {
    forall q | q in Samples(Without(rest, j)) ensures q.stream == stream {
      SamplesIn(Without(rest, j), q);
      assert forall x :: x in Without(rest, j) ==> x in rest;
    }
  }

  // ----- The pipeline meets the rule -----

  /** Lagged columns that agree with a prior; the row chosen among tied ones is left open. */
  ghost predicate Agrees(prev: Lagged, prior: Prior) {
    match prior
    case Nothing => prev == Lagged(None, None, None, None, None)
    case One(b) => prev == Lagged(Some(b.time), Some(b.start), Value(b), Some(b.flags), Some(1))
    case Tied(t) => prev.time == Some(t) && prev.sameTime.Some? && prev.sameTime.value > 1
  }

  /** The arms for ties come before every arm that reads the tied row. */
  lemma OnlyThePriorMatters(s: Sample, sameTime: int, sameTime': int, prev: Lagged, prev': Lagged, prior: Prior)
    requires sameTime > 1 <==> sameTime' > 1
    requires sameTime <= 1 ==> Agrees(prev, prior) && Agrees(prev', prior)
    ensures Calculate(s, sameTime, prev) == Calculate(s, sameTime', prev')
  {
    assert Check(s, sameTime, prev) == Check(s, sameTime', prev');
  }

  lemma LagAgrees(rows: seq<Row>, r: Row, o: seq<Row>, i: nat)
    requires At(rows, r, o, i)
    ensures Agrees(Lag(o, i), PriorAt(o, i))
  {
    if i > 0 {
      SameTimeWithout(o, i - 1, o[i - 1].sample.time);
    }
  }

  /** Where the query finds r, with what the rest of the stream tells it. */
  lemma Located(rows: seq<Row>, r: Row) returns (o: seq<Row>, i: nat)
    requires r in rows
    ensures At(rows, r, o, i) && i == Locate(o, r) && RateOf(rows, r) == OutcomeAt(o, i)
    ensures Agrees(Lag(o, i), PriorAt(o, i))
    ensures Alone(Others(rows, r), r.sample) <==> SameTime(o, r.sample.time) <= 1
    ensures Alone(Others(rows, r), r.sample) ==> IsPrior(Others(rows, r), r.sample, PriorAt(o, i))
  {
    o := Ordered(rows, r.sample.stream);
    OrderedMembers(rows, r.sample.stream);
    i := Locate(o, r);
    LagAgrees(rows, r, o, i);
    AloneByCount(rows, r, o, i);
    if Alone(Others(rows, r), r.sample) {
      LagMeetsPrior(rows, r, o, i);
    }
  }
}
