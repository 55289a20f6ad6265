/**
 What the rate query promises, point by point and over whole streams. A point is judged against the
 multiset of the other points, where row ids do not exist.
 */
module RateRules {
  import opened Options
  import opened CounterRates

  /** The increase over a baseline, as a rate. */
  function Increase(s: Sample, b: Sample): Outcome
    requires Value(s).Some? && Value(b).Some? && b.time < s.time
  {
    var delta := Value(s).value - Value(b).value;
    Outcome(None, Some(b.time), Some(delta), Some(delta / ((s.time - b.time) as real / 1000000000.0)))
  }

  lemma CumulativeArms(s: Sample, sameTime: int, prev: Lagged, prior: Prior)
    requires s.stream.temporality == Cumulative && Agrees(prev, prior)
    requires prior.One? ==> prior.sample.time < s.time
    ensures Check(s, sameTime, prev) == None
      <==> Valid(s) && sameTime <= 1 && prior.One? && Usable(prior.sample, s)
  {
  }

  lemma CumulativeIncrease(s: Sample, sameTime: int, prev: Lagged, b: Sample)
    requires s.stream.temporality == Cumulative && Agrees(prev, One(b)) && b.time < s.time
    requires Check(s, sameTime, prev) == None
    ensures Value(s).Some? && Value(b).Some?
    ensures Calculate(s, sameTime, prev) == Increase(s, b)
  {
    CumulativeArms(s, sameTime, prev, One(b));
    assert (s.time - b.time) as real / 1000000000.0 != 0.0;
  }

  /**
   A cumulative point is rated exactly when it is valid, alone at its time, and the latest earlier
   time of its stream holds exactly one point, recorded, non-negative, not larger, with the same
   start and not before that start; the rate is then the increase over that baseline.
   */
  lemma CumulativeRule(rows: seq<Row>, r: Row)
    requires r in rows && r.sample.stream.temporality == Cumulative
    ensures RateOf(rows, r).reason == None <==> CumulativeRated(Others(rows, r), r.sample)
    ensures forall b :: IsBaseline(Others(rows, r), r.sample, b) && RateOf(rows, r).reason == None ==>
      Usable(b, r.sample) && RateOf(rows, r) == Increase(r.sample, b)
  {
    var others, s := Others(rows, r), r.sample;
    var o, i := Located(rows, r);
    var prior := PriorAt(o, i);
    if Alone(others, s) {
      forall b | IsBaseline(others, s, b) ensures prior == One(b) {
        PriorIsUnique(others, s, prior, One(b));
      }
      CumulativeArms(s, SameTime(o, s.time), Lag(o, i), prior);
      if RateOf(rows, r).reason == None {
        CumulativeIncrease(s, SameTime(o, s.time), Lag(o, i), prior.sample);
      }
    }
  }

  lemma DeltaArms(s: Sample, sameTime: int, prev: Lagged, prior: Prior)
    requires s.stream.temporality == Delta && Agrees(prev, prior)
    ensures Check(s, sameTime, prev) == None
      <==> Valid(s) && sameTime <= 1 && s.start < s.time && !OverlapsPrior(s, prior)
    ensures Check(s, sameTime, prev) == None ==>
      && s.start < s.time
      && Calculate(s, sameTime, prev)
         == Outcome(None, Some(s.start), Value(s), Some(Value(s).value / ((s.time - s.start) as real / 1000000000.0)))
  {
    if s.start < s.time {
      assert (s.time - s.start) as real / 1000000000.0 != 0.0;
    }
  }

  predicate OverlapsPrior(s: Sample, prior: Prior) {
    (prior.One? && s.start < prior.sample.time) || (prior.Tied? && s.start < prior.time)
  }

  /**
   A delta point is rated exactly when it is valid, alone at its time, of positive duration, and no
   earlier-timed point of its stream ends after its start; the rate covers its own interval.
   */
  lemma DeltaRule(rows: seq<Row>, r: Row)
    requires r in rows && r.sample.stream.temporality == Delta
    ensures RateOf(rows, r).reason == None <==> DeltaRated(Others(rows, r), r.sample)
    ensures RateOf(rows, r).reason == None ==>
      var s := r.sample;
      && s.start < s.time
      && RateOf(rows, r)
         == Outcome(None, Some(s.start), Value(s), Some(Value(s).value / ((s.time - s.start) as real / 1000000000.0)))
  {
    var others, s := Others(rows, r), r.sample;
    var o, i := Located(rows, r);
    DeltaArms(s, SameTime(o, s.time), Lag(o, i), PriorAt(o, i));
    if Alone(others, s) {
      DeltaOverlap(others, s, PriorAt(o, i));
    }
  }

  lemma DeltaOverlap(others: multiset<Sample>, s: Sample, prior: Prior)
    requires IsPrior(others, s, prior)
    ensures OverlapsPrior(s, prior)
      <==> exists q :: q in others && q.stream == s.stream && q.time < s.time && s.start < q.time
  {
    if prior.One? {
      var b := prior.sample;
      forall q | q in others && q.stream == s.stream && q.time < s.time ensures q.time <= b.time {
        assert q == b || q in others - multiset{b};
      }
    }
  }

  // ----- Why a point is not rated -----

  predicate Counting(s: Sample) {
    s.stream.metricType == Sum && s.stream.monotonic == Some(1)
  }

  /** A point of the stream, earlier than s, that ends after s starts. */
  ghost predicate Overlapped(others: multiset<Sample>, s: Sample) {
    exists q :: q in others && q.stream == s.stream && s.start < q.time < s.time
  }

  /** The latest earlier time of the stream holds more than one point. */
  ghost predicate TiedBaseline(others: multiset<Sample>, s: Sample) {
    exists t :: IsPrior(others, s, Tied(t))
  }

  ghost predicate NothingEarlier(others: multiset<Sample>, s: Sample) {
    forall q :: q in others && q.stream == s.stream ==> q.time >= s.time
  }

  predicate Recorded(b: Sample) {
    b.flags % 2 == 0 && Value(b).Some? && Value(b).value >= 0.0
  }

  /** A point that can be rated as far as it tells itself. */
  ghost predicate Candidate(others: multiset<Sample>, s: Sample) {
    Valid(s) && Alone(others, s) && s.start < s.time
  }

  /** The baseline of a cumulative candidate. */
  ghost predicate Against(others: multiset<Sample>, s: Sample, b: Sample) {
    Candidate(others, s) && s.stream.temporality == Cumulative && IsBaseline(others, s, b)
  }

  /**
   When each reason is the one reported: first what the point tells of itself, in this order, then what
   the rest of its stream tells of it. No reason means that the point is rated.
   */
  ghost predicate Explains(others: multiset<Sample>, s: Sample, reason: Option<Reason>) {
    match reason
    case Some(NotMonotonicSum) => !Counting(s)
    case Some(UnspecifiedTemporality) => Counting(s) && s.stream.temporality == Unspecified
    case Some(NoRecordedValue) => Counting(s) && s.stream.temporality != Unspecified && s.flags % 2 != 0
    case Some(MissingOrNonfiniteValue) =>
      Counting(s) && s.stream.temporality != Unspecified && s.flags % 2 == 0 && Value(s).None?
    case Some(NegativeMonotonicSum) =>
      Counting(s) && s.stream.temporality != Unspecified && s.flags % 2 == 0 && Value(s).Some? && Value(s).value < 0.0
    case Some(MissingTimestamp) =>
      Counting(s) && s.stream.temporality != Unspecified && Recorded(s) && (s.time == 0 || s.start == 0)
    case Some(InvalidInterval) =>
      Counting(s) && s.stream.temporality != Unspecified && Recorded(s) && s.time != 0 && s.start != 0 && s.start > s.time
    case Some(AmbiguousTimestamp) => Valid(s) && s.stream.temporality != Unspecified && !Alone(others, s)
    case Some(ZeroDuration) => Valid(s) && s.stream.temporality != Unspecified && Alone(others, s) && s.start == s.time
    case Some(OverlappingInterval) => Candidate(others, s) && s.stream.temporality == Delta && Overlapped(others, s)
    case Some(NoBaseline) =>
      && Candidate(others, s) && s.stream.temporality == Cumulative
      && (NothingEarlier(others, s) || exists b :: Against(others, s, b) && !Recorded(b))
    case Some(AmbiguousBaseline) => Candidate(others, s) && s.stream.temporality == Cumulative && TiedBaseline(others, s)
    case Some(Reset) => exists b :: Against(others, s, b) && Recorded(b) && b.start != s.start
    case Some(InvalidBaseline) => exists b :: Against(others, s, b) && Recorded(b) && b.start == s.start && b.time < s.start
    case Some(CounterDecreased) =>
      exists b :: Against(others, s, b) && Recorded(b) && b.start == s.start <= b.time && Value(s).value < Value(b).value
    case None =>
      if s.stream.temporality == Cumulative then CumulativeRated(others, s)
      else s.stream.temporality == Delta && DeltaRated(others, s)
  }

  /** The arms that read the point alone. */
  lemma OwnArms(s: Sample, sameTime: int, prev: Lagged)
    ensures var c := Check(s, sameTime, prev);
      && (c == Some(NotMonotonicSum) <==> !Counting(s))
      && (c == Some(UnspecifiedTemporality) <==> Counting(s) && s.stream.temporality == Unspecified)
      && (Counting(s) && s.stream.temporality != Unspecified && !Valid(s) ==>
            c == Some(if s.flags % 2 != 0 then NoRecordedValue
                      else if Value(s).None? then MissingOrNonfiniteValue
                      else if Value(s).value < 0.0 then NegativeMonotonicSum
                      else if s.time == 0 || s.start == 0 then MissingTimestamp
                      else InvalidInterval))
      && (Valid(s) && s.stream.temporality != Unspecified && sameTime > 1 ==> c == Some(AmbiguousTimestamp))
      && (Valid(s) && s.stream.temporality != Unspecified && sameTime <= 1 && s.start == s.time ==> c == Some(ZeroDuration))
  {
  }

  /** The arms that read the previous point, for a delta. */
  lemma DeltaReason(s: Sample, sameTime: int, prev: Lagged, prior: Prior)
    requires Valid(s) && sameTime <= 1 && s.start < s.time && s.stream.temporality == Delta && Agrees(prev, prior)
    ensures Check(s, sameTime, prev) == if OverlapsPrior(s, prior) then Some(OverlappingInterval) else None
  {
  }

  /** The arms that read the previous point, for a cumulative point. */
  lemma CumulativeReason(s: Sample, sameTime: int, prev: Lagged, prior: Prior)
    requires Valid(s) && sameTime <= 1 && s.start < s.time && s.stream.temporality == Cumulative && Agrees(prev, prior)
    ensures Check(s, sameTime, prev)
      == match prior
         case Nothing => Some(NoBaseline)
         case Tied(_) => Some(AmbiguousBaseline)
         case One(b) =>
           if !Recorded(b) then Some(NoBaseline)
           else if b.start != s.start then Some(Reset)
           else if b.time < s.start then Some(InvalidBaseline)
           else if Value(s).value < Value(b).value then Some(CounterDecreased)
           else None
  {
  }

  lemma OwnReason(others: multiset<Sample>, s: Sample, reason: Option<Reason>)
    requires !Valid(s) || s.stream.temporality == Unspecified
    ensures Explains(others, s, reason)
      <==> reason == Some(if !Counting(s) then NotMonotonicSum
                          else if s.stream.temporality == Unspecified then UnspecifiedTemporality
                          else if s.flags % 2 != 0 then NoRecordedValue
                          else if Value(s).None? then MissingOrNonfiniteValue
                          else if Value(s).value < 0.0 then NegativeMonotonicSum
                          else if s.time == 0 || s.start == 0 then MissingTimestamp
                          else InvalidInterval)
  {
    hide Alone, IsBaseline, Overlapped, TiedBaseline, NothingEarlier;
  }

  lemma TimeReason(others: multiset<Sample>, s: Sample, reason: Option<Reason>)
    requires Valid(s) && s.stream.temporality != Unspecified && !Candidate(others, s)
    ensures Explains(others, s, reason) <==> reason == Some(if !Alone(others, s) then AmbiguousTimestamp else ZeroDuration)
  {
    hide Alone, IsBaseline, Overlapped, TiedBaseline, NothingEarlier;
    if Alone(others, s) {
      forall b | IsBaseline(others, s, b) ensures !Usable(b, s) || b.time < s.time {
        BaselineIsEarlier(others, s, b);
      }
    }
  }

  lemma BaselineIsEarlier(others: multiset<Sample>, s: Sample, b: Sample)
    requires IsBaseline(others, s, b)
    ensures b.time < s.time
  {
  }

  lemma OverlapReason(others: multiset<Sample>, s: Sample, reason: Option<Reason>)
    requires Candidate(others, s) && s.stream.temporality == Delta
    ensures Explains(others, s, reason) <==> reason == if Overlapped(others, s) then Some(OverlappingInterval) else None
  {
    hide Alone, IsBaseline, TiedBaseline, NothingEarlier;
  }

  lemma BaselineReason(others: multiset<Sample>, s: Sample, prior: Prior, reason: Option<Reason>)
    requires Candidate(others, s) && s.stream.temporality == Cumulative && IsPrior(others, s, prior)
    ensures Explains(others, s, reason)
      <==> reason == match prior
                     case Nothing => Some(NoBaseline)
                     case Tied(_) => Some(AmbiguousBaseline)
                     case One(b) =>
                       if !Recorded(b) then Some(NoBaseline)
                       else if b.start != s.start then Some(Reset)
                       else if b.time < s.start then Some(InvalidBaseline)
                       else if Value(s).value < Value(b).value then Some(CounterDecreased)
                       else None
  {
    hide Alone, IsBaseline, TiedBaseline, NothingEarlier, IsPrior;
    PriorMeans(others, s, prior);
  }

  /** The query gives a point a reason exactly when that reason explains it, whatever the row ids. */
  lemma ReasonRule(rows: seq<Row>, r: Row, reason: Option<Reason>)
    requires r in rows
    ensures RateOf(rows, r).reason == reason <==> Explains(Others(rows, r), r.sample, reason)
  {
    hide Others, Ordered, Check, IsPrior, Alone, Explains, Agrees, Lag, SameTime, PriorAt, Overlapped, Recorded;
    var others, s := Others(rows, r), r.sample;
    var o, i := Located(rows, r);
    OwnArms(s, SameTime(o, s.time), Lag(o, i));
    if !Valid(s) || s.stream.temporality == Unspecified {
      OwnReason(others, s, reason);
    } else if !Candidate(others, s) {
      TimeReason(others, s, reason);
    } else if s.stream.temporality == Delta {
      DeltaReason(s, SameTime(o, s.time), Lag(o, i), PriorAt(o, i));
      DeltaOverlap(others, s, PriorAt(o, i));
      OverlapReason(others, s, reason);
      assert Overlapped(others, s) <==> OverlapsPrior(s, PriorAt(o, i)) by { OverlappedMeans(others, s); }
    } else {
      CumulativeReason(s, SameTime(o, s.time), Lag(o, i), PriorAt(o, i));
      BaselineReason(others, s, PriorAt(o, i), reason);
    }
  }

  lemma OverlappedMeans(others: multiset<Sample>, s: Sample)
    ensures Overlapped(others, s) <==> exists q :: q in others && q.stream == s.stream && q.time < s.time && s.start < q.time
  {
  }

  /** What the prior says of the rest of the stream; there is only one. */
  lemma PriorMeans(others: multiset<Sample>, s: Sample, prior: Prior)
    requires IsPrior(others, s, prior)
    ensures NothingEarlier(others, s) <==> prior == Nothing
    ensures TiedBaseline(others, s) <==> prior.Tied?
    ensures forall b :: IsBaseline(others, s, b) <==> prior == One(b)
  {
    if NothingEarlier(others, s) { PriorIsUnique(others, s, prior, Nothing); }
    forall t | IsPrior(others, s, Tied(t)) ensures prior == Tied(t) { PriorIsUnique(others, s, prior, Tied(t)); }
    forall b | IsBaseline(others, s, b) ensures prior == One(b) { PriorIsUnique(others, s, prior, One(b)); }
  }

  /** A point that is not rated has no interval, no delta and no rate. */
  lemma ReasonOrRate(rows: seq<Row>, r: Row)
    requires r in rows
    ensures var o := RateOf(rows, r);
      o.reason.Some? <==> o.intervalStart.None? && o.delta.None? && o.rate.None?
  {
    if RateOf(rows, r).reason.None? { RatedInterval(rows, r); }
    var o, i := Located(rows, r);
  }

  /** A point that is neither cumulative nor delta is never rated. */
  lemma OtherwiseUnrated(rows: seq<Row>, r: Row)
    requires r in rows && r.sample.stream.temporality == Unspecified
    ensures RateOf(rows, r).reason in {Some(NotMonotonicSum), Some(UnspecifiedTemporality)}
    ensures RateOf(rows, r).rate == None
  {
    OrderedMembers(rows, r.sample.stream);
  }

  /** The points of one stream, with their multiplicities and without their row ids. */
  ghost predicate SameStream(rows: seq<Row>, rows': seq<Row>, stream: Stream) {
    forall q: Sample :: q.stream == stream ==> Samples(rows)[q] == Samples(rows')[q]
  }

  /**
   The answer for a point depends only on the multiset of points in its stream: any renumbering,
   reordering, or change to other streams leaves reason, interval, delta and rate the same.
   */
  lemma RenumberingKeepsAnswers(rows: seq<Row>, r: Row, rows': seq<Row>, r': Row)
    requires r in rows && r' in rows' && r.sample == r'.sample
    requires SameStream(rows, rows', r.sample.stream)
    ensures RateOf(rows, r) == RateOf(rows', r')
  {
    var s := r.sample;
    var o, i := Located(rows, r);
    var o', i' := Located(rows', r');
    AloneInStream(rows, r, rows', r');
    if Alone(Others(rows, r), s) {
      OthersInStream(rows, r, rows', r');
      SamePrior(Others(rows, r), Others(rows', r'), s, PriorAt(o, i), PriorAt(o', i'));
    }
    OnlyThePriorMatters(s, SameTime(o, s.time), SameTime(o', s.time), Lag(o, i), Lag(o', i'), PriorAt(o, i));
  }

  lemma AloneInStream(rows: seq<Row>, r: Row, rows': seq<Row>, r': Row)
    requires r.sample == r'.sample && SameStream(rows, rows', r.sample.stream)
    ensures Alone(Others(rows, r), r.sample) <==> Alone(Others(rows', r'), r.sample)
  {
    var others, others' := Others(rows, r), Others(rows', r');
    assert forall q: Sample :: q.stream == r.sample.stream ==> others[q] == others'[q];
    assert forall q: Sample :: q.stream == r.sample.stream ==> (q in others <==> q in others');
  }

  lemma OthersInStream(rows: seq<Row>, r: Row, rows': seq<Row>, r': Row)
    requires r.sample == r'.sample && SameStream(rows, rows', r.sample.stream)
    ensures forall q: Sample :: q.stream == r.sample.stream ==> Others(rows, r)[q] == Others(rows', r')[q]
  {
  }

  lemma SamePrior(others: multiset<Sample>, others': multiset<Sample>, s: Sample, prior: Prior, prior': Prior)
    requires forall q: Sample :: q.stream == s.stream ==> others[q] == others'[q]
    requires IsPrior(others, s, prior) && IsPrior(others', s, prior')
    ensures prior == prior'
  {
    PriorOfStream(others, others', s, prior');
    PriorIsUnique(others, s, prior, prior');
  }

  lemma PriorOfStream(others: multiset<Sample>, others': multiset<Sample>, s: Sample, prior: Prior)
    requires forall q: Sample :: q.stream == s.stream ==> others[q] == others'[q]
    requires IsPrior(others', s, prior)
    ensures IsPrior(others, s, prior)
  {
    assert forall q: Sample :: q.stream == s.stream ==> (q in others <==> q in others');
    match prior
    case Nothing =>
    case One(b) =>
      assert forall q: Sample :: q.stream == s.stream ==> (q in others - multiset{b} <==> q in others' - multiset{b});
    case Tied(t) =>
      var a, b :| a in others' && b in others' - multiset{a} && a.stream == b.stream == s.stream && a.time == b.time == t;
      assert a in others && b in others - multiset{a};
  }

  // ----- Intervals and sums of deltas -----

  lemma AnotherRow(rows: seq<Row>, r: Row, r': Row)
    requires r in rows && r' in rows && r != r'
    ensures r'.sample in Others(rows, r)
  {
    var j :| 0 <= j < |rows| && rows[j] == r;
    var k :| 0 <= k < |rows| && rows[k] == r';
    var rest := Without(rows, j);
    assert rest[if k < j then k else k - 1] == r';
    SamplesWithout(rows, j);
    SamplesIn(rest, r'.sample);
    assert Samples(rows) == multiset{r.sample} + Samples(rest);
  }

  lemma RatedPointIsAlone(rows: seq<Row>, r: Row)
    requires r in rows && RateOf(rows, r).reason == None
    ensures r.sample.stream.temporality in {Delta, Cumulative} && Alone(Others(rows, r), r.sample)
  {
    if r.sample.stream.temporality == Cumulative {
      CumulativeRule(rows, r);
    } else if r.sample.stream.temporality == Delta {
      DeltaRule(rows, r);
    } else {
      OtherwiseUnrated(rows, r);
    }
  }

  /** A rated interval ends at its point, has positive length, and starts no earlier than any earlier point. */
  lemma RatedInterval(rows: seq<Row>, r: Row)
    requires r in rows && RateOf(rows, r).reason == None
    ensures RateOf(rows, r).intervalStart.Some? && RateOf(rows, r).intervalStart.value < r.sample.time
    ensures forall q :: q in Others(rows, r) && q.stream == r.sample.stream && q.time < r.sample.time ==>
      q.time <= RateOf(rows, r).intervalStart.value
  {
    var others, s := Others(rows, r), r.sample;
    RatedPointIsAlone(rows, r);
    if s.stream.temporality == Delta {
      DeltaRule(rows, r);
    } else {
      CumulativeRule(rows, r);
      var b :| IsBaseline(others, s, b);
      forall q | q in others && q.stream == s.stream && q.time < s.time ensures q.time <= b.time {
        assert q == b || q in others - multiset{b};
      }
    }
  }

  /** Rated intervals of one stream never overlap. */
  lemma RatedIntervalsApart(rows: seq<Row>, r: Row, r': Row)
    requires r in rows && r' in rows && r != r' && r.sample.stream == r'.sample.stream
    requires RateOf(rows, r).reason == None && RateOf(rows, r').reason == None
    ensures RateOf(rows, r).intervalStart.Some? && RateOf(rows, r').intervalStart.Some?
    ensures r.sample.time <= RateOf(rows, r').intervalStart.value || r'.sample.time <= RateOf(rows, r).intervalStart.value
  {
    AnotherRow(rows, r, r');
    AnotherRow(rows, r', r);
    RatedPointIsAlone(rows, r);
    RatedInterval(rows, r);
    RatedInterval(rows, r');
  }

  function SumOfDeltas(o: seq<Row>, from: nat, end: nat): real
    requires from <= end <= |o|
    decreases end
  {
    if from == end then 0.0
    else SumOfDeltas(o, from, end - 1) + DeltaAt(o, end - 1)
  }

  function DeltaAt(o: seq<Row>, k: nat): real
    requires k < |o|
  {
    match OutcomeAt(o, k).delta
    case Some(d) => d
    case None => 0.0
  }

  predicate RatedAt(o: seq<Row>, k: nat)
    requires k < |o|
  {
    o[k].sample.stream.temporality == Cumulative && OutcomeAt(o, k).reason == None
  }

  lemma RatedStep(o: seq<Row>, k: nat)
    requires k < |o| && RatedAt(o, k)
    ensures k > 0 && Value(o[k].sample).Some? && Value(o[k - 1].sample).Some?
    ensures DeltaAt(o, k) == Value(o[k].sample).value - Value(o[k - 1].sample).value
    ensures o[k].sample.start == o[k - 1].sample.start <= o[k - 1].sample.time
    ensures 0.0 <= Value(o[k - 1].sample).value <= Value(o[k].sample).value
  {
  }

  /** Over a run of rated cumulative points the deltas add up to last minus baseline, under one start. */
  lemma {:induction false} DeltasTelescope(o: seq<Row>, from: nat, end: nat)
    requires from < end <= |o|
    requires forall k :: from <= k < end ==> RatedAt(o, k)
    ensures from > 0 && Value(o[end - 1].sample).Some? && Value(o[from - 1].sample).Some?
    ensures SumOfDeltas(o, from, end) == Value(o[end - 1].sample).value - Value(o[from - 1].sample).value
    ensures forall k :: from - 1 <= k < end ==> o[k].sample.start == o[from - 1].sample.start
    decreases end
  {
    hide RatedAt, DeltaAt, Value;
    RatedStep(o, end - 1);
    if from + 1 < end {
      DeltasTelescope(o, from, end - 1);
    } else {
      assert SumOfDeltas(o, from, from) == 0.0;
    }
  }

  const MAX_INT64: int := 0x7fff_ffff_ffff_ffff

  /** Between integer points a rated delta is an integer, is not negative and fits int64: SQLite never widens it. */
  lemma IntegerDeltaFits(o: seq<Row>, k: nat)
    requires k < |o| && RatedAt(o, k)
    ensures k > 0
    ensures var s, b := o[k].sample, o[k - 1].sample;
      s.numberInt.Some? && b.numberInt.Some? && s.numberInt.value <= MAX_INT64 ==>
      var d := s.numberInt.value - b.numberInt.value;
      DeltaAt(o, k) == d as real && 0 <= d <= MAX_INT64
  {
    RatedStep(o, k);
  }
}
