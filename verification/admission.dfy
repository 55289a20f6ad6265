/**
 The admission limit shared by the HTTP and gRPC receivers: a channel of permits and a separate
 counter, each changed by its own atomic step, under every interleaving of requests.
 */
module Admission {
  import Sets

  /** Where one request is between two atomic steps. */
  datatype Phase =
    | Away
    | Arrived          // an export request, before the readiness checks
    | PipelineReady    // the pipeline is ready; the store is not yet asked
    | Ready            // before the permit
    | Granted          // holds a permit, not yet counted
    | Handling         // counted; the export handler runs
    | Done             // the handler has returned or panicked; the deferred release is next
    | Returned         // gave its permit back, still counted
    | Refused          // an error is on its way; the rejection is not yet counted
    | Unlimited        // not an export: the handler runs without a permit

  datatype System = System(limit: nat, permits: nat, inFlight: int, rejected: nat, pipelineReady: bool, requests: map<nat, Phase>)

  /** Advance does the next atomic step of a request; the store's readiness is an answer from outside. */
  datatype Action = Arrive(limited: bool) | Advance(storeReady: bool) | SetPipeline(ready: bool)

  datatype Counters = Counters(permits: nat, inFlight: int, rejected: nat)

  /** The next step of a request on the shared counters. */
  function Step(limit: nat, c: Counters, pipelineReady: bool, p: Phase, storeReady: bool): (Counters, Phase) {
    match p
    case Away => (c, Away)
    case Arrived => (c, if pipelineReady then PipelineReady else Refused)
    case PipelineReady => (c, if storeReady then Ready else Refused)
    case Ready => if c.permits < limit then (c.(permits := c.permits + 1), Granted) else (c, Refused)
    case Granted => (c.(inFlight := c.inFlight + 1), Handling)
    case Handling => (c, Done)
    case Done => (c.(permits := if c.permits > 0 then c.permits - 1 else 0), Returned)
    case Returned => (c.(inFlight := c.inFlight - 1), Away)
    case Refused => (c.(rejected := c.rejected + 1), Away)
    case Unlimited => (c, Away)
  }

  function CountersOf(w: System): Counters {
    Counters(w.permits, w.inFlight, w.rejected)
  }

  function Next(w: System, t: nat, a: Action): System {
    if t !in w.requests then w
    else
      match a
      case SetPipeline(ready) => w.(pipelineReady := ready)
      case Arrive(limited) =>
        if w.requests[t].Away? then w.(requests := w.requests[t := if limited then Arrived else Unlimited]) else w
      case Advance(storeReady) =>
        var (c, p) := Step(w.limit, CountersOf(w), w.pipelineReady, w.requests[t], storeReady);
        System(w.limit, c.permits, c.inFlight, c.rejected, w.pipelineReady, w.requests[t := p])
  }

  datatype Move = Move(request: nat, action: Action)

  function Run(w: System, schedule: seq<Move>): System {
    if schedule == [] then w
    else
      var move := schedule[|schedule| - 1];
      Next(Run(w, schedule[..|schedule| - 1]), move.request, move.action)
  }

  ghost predicate Initial(w: System) {
    && w.limit > 0 && w.permits == 0 && w.inFlight == 0 && w.rejected == 0
    && forall t :: t in w.requests ==> w.requests[t].Away?
  }

  // ----- Counting requests -----

  predicate Holds(p: Phase) {
    p.Granted? || p.Handling? || p.Done?
  }

  predicate Counted(p: Phase) {
    p.Handling? || p.Done? || p.Returned?
  }

  function Holders(w: System): set<nat> {
    set t | t in w.requests && Holds(w.requests[t])
  }

  function Handlers(w: System): set<nat> {
    set t | t in w.requests && w.requests[t].Handling?
  }

  function CountedOnes(w: System): set<nat> {
    set t | t in w.requests && Counted(w.requests[t])
  }

  /** Requests that hold a permit and are not counted yet. */
  function PendingUp(w: System): set<nat> {
    set t | t in w.requests && w.requests[t].Granted?
  }

  /** Requests that are still counted and hold no permit any more. */
  function PendingDown(w: System): set<nat> {
    set t | t in w.requests && w.requests[t].Returned?
  }

  ghost predicate Inv(w: System) {
    w.permits == |Holders(w)| && w.permits <= w.limit && w.inFlight == |CountedOnes(w)|
  }

  /** A request that changes its phase enters or leaves a set of requests, and no other request does. */
  lemma SetAfterStep(before: set<nat>, after: set<nat>, t: nat)
    requires forall s :: s != t ==> (s in before <==> s in after)
    ensures |after| - |before| == (if t in after then 1 else 0) - (if t in before then 1 else 0)
  {
    assert before - {t} == after - {t};
    if t in before { assert before == (before - {t}) + {t}; } else { assert before == before - {t}; }
    if t in after { assert after == (after - {t}) + {t}; } else { assert after == after - {t}; }
  }

  lemma InvStep(w: System, t: nat, a: Action)
    requires Inv(w)
    ensures Inv(Next(w, t, a))
  {
    var w' := Next(w, t, a);
    if t in w.requests && !a.SetPipeline? {
      SetAfterStep(Holders(w), Holders(w'), t);
      SetAfterStep(CountedOnes(w), CountedOnes(w'), t);
    } else {
      assert Holders(w') == Holders(w) && CountedOnes(w') == CountedOnes(w);
    }
  }

  lemma {:induction false} RunsKeepInv(w: System, schedule: seq<Move>)
    requires Initial(w)
    ensures Inv(Run(w, schedule)) && Run(w, schedule).limit == w.limit
  {
    if schedule == [] {
      assert Holders(w) == {} && CountedOnes(w) == {};
    } else {
      var move := schedule[|schedule| - 1];
      RunsKeepInv(w, schedule[..|schedule| - 1]);
      InvStep(Run(w, schedule[..|schedule| - 1]), move.request, move.action);
    }
  }

  lemma CountedByPermits(w: System)
    requires Inv(w)
    ensures w.inFlight == w.permits - |PendingUp(w)| + |PendingDown(w)|
    ensures |Handlers(w)| <= w.permits
  {
    var both := Holders(w) - PendingUp(w);
    assert CountedOnes(w) == both + PendingDown(w) && both !! PendingDown(w);
    assert Holders(w) == both + PendingUp(w);
    assert Handlers(w) <= Holders(w);
    Sets.SubsetSize(Handlers(w), Holders(w));
  }

  /**
   In every interleaving no more handlers run than the limit allows. The permits in use are the counter
   corrected for requests between their permit and their count, so at rest both are zero.
   */
  lemma AdmissionLimit(w: System, schedule: seq<Move>)
    requires Initial(w)
    ensures var e := Run(w, schedule);
      && |Handlers(e)| <= e.permits <= w.limit
      && e.permits == e.inFlight + |PendingUp(e)| - |PendingDown(e)|
      && e.inFlight <= w.limit + |PendingDown(e)|
      && ((forall t :: t in e.requests ==> !Holds(e.requests[t]) && !Counted(e.requests[t])) ==> e.permits == 0 && e.inFlight == 0)
  {
    RunsKeepInv(w, schedule);
    var e := Run(w, schedule);
    CountedByPermits(e);
    if forall t :: t in e.requests ==> !Holds(e.requests[t]) && !Counted(e.requests[t]) {
      assert Holders(e) == {} && CountedOnes(e) == {};
    }
  }

  /** A ready request is refused its permit exactly when the limit is reached by requests that hold one. */
  lemma RefusedWhenFull(w: System, schedule: seq<Move>, t: nat, storeReady: bool)
    requires Initial(w) && t in Run(w, schedule).requests && Run(w, schedule).requests[t].Ready?
    ensures var e := Run(w, schedule);
      Next(e, t, Advance(storeReady)).requests[t].Refused? <==> |Holders(e)| == w.limit
  {
    RunsKeepInv(w, schedule);
  }

  // ----- The counter may exceed the limit -----

  function Advances(t: nat, n: nat): seq<Move> {
    if n == 0 then [] else Advances(t, n - 1) + [Move(t, Advance(true))]
  }

  /** With one permit, a second request can be counted before the first has taken itself off the counter. */
  lemma CounterCanExceedLimit()
    ensures exists w: System, schedule: seq<Move> :: Initial(w) && Run(w, schedule).inFlight > w.limit
  {
    hide Times, Advances, Run, Step;
    var w := System(1, 0, 0, 0, true, map[0 := Away, 1 := Away]);
    RunOne(w, [], Move(0, Arrive(true)));
    var first := [] + [Move(0, Arrive(true))];
    NothingRun(w);
    RunAdvances(w, first, 0, 6);
    FirstReturns(Run(w, first));
    RunOne(w, first + Advances(0, 6), Move(1, Arrive(true)));
    var second := first + Advances(0, 6) + [Move(1, Arrive(true))];
    RunAdvances(w, second, 1, 4);
    SecondIsCounted(Run(w, second));
    assert Run(w, second + Advances(1, 4)).inFlight == 2;
  }

  lemma NothingRun(w: System)
    ensures Run(w, []) == w
  {
  }

  lemma RunOne(w: System, s: seq<Move>, move: Move)
    ensures Run(w, s + [move]) == Next(Run(w, s), move.request, move.action)
  {
    assert (s + [move])[..|s|] == s;
  }

  function Times(w: System, t: nat, n: nat): System {
    if n == 0 then w else Next(Times(w, t, n - 1), t, Advance(true))
  }

  lemma {:induction false} RunAdvances(w: System, s: seq<Move>, t: nat, n: nat)
    ensures Run(w, s + Advances(t, n)) == Times(Run(w, s), t, n)
  {
    if n == 0 {
      assert s + Advances(t, 0) == s;
    } else {
      RunAdvances(w, s, t, n - 1);
      var all := s + Advances(t, n);
      assert all[..|all| - 1] == s + Advances(t, n - 1);
    }
  }

  lemma FirstReturns(w: System)
    requires w == System(1, 0, 0, 0, true, map[0 := Arrived, 1 := Away])
    ensures Times(w, 0, 6) == System(1, 0, 1, 0, true, map[0 := Returned, 1 := Away])
  {
    assert Times(w, 0, 3) == System(1, 1, 0, 0, true, map[0 := Granted, 1 := Away]);
    assert Times(w, 0, 4) == System(1, 1, 1, 0, true, map[0 := Handling, 1 := Away]);
    assert Times(w, 0, 5) == System(1, 1, 1, 0, true, map[0 := Done, 1 := Away]);
  }

  lemma SecondIsCounted(w: System)
    requires w == System(1, 0, 1, 0, true, map[0 := Returned, 1 := Arrived])
    ensures Times(w, 1, 4).inFlight == 2
  {
    assert Times(w, 1, 2) == System(1, 0, 1, 0, true, map[0 := Returned, 1 := Ready]);
    assert Times(w, 1, 3) == System(1, 1, 1, 0, true, map[0 := Returned, 1 := Granted]);
  }

  // ----- The methods -----

  /** Acquire run without interruption. */
  function Acquired(limit: nat, c: Counters, pipelineReady: bool, storeReady: bool): (Counters, bool) {
    if !pipelineReady || !storeReady || c.permits >= limit then (c.(rejected := c.rejected + 1), false)
    else (Counters(c.permits + 1, c.inFlight + 1, c.rejected), true)
  }

  /** The steps of one request, with no step of another in between, are the method below. */
  lemma StepsAreAcquire(limit: nat, c: Counters, pipelineReady: bool, storeReady: bool)
    ensures var (c1, p1) := Step(limit, c, pipelineReady, Arrived, storeReady);
      var (c2, p2) := Step(limit, c1, pipelineReady, p1, storeReady);
      var (c3, p3) := if p2.Away? then (c2, p2) else Step(limit, c2, pipelineReady, p2, storeReady);
      var (c4, p4) := if p3.Away? then (c3, p3) else Step(limit, c3, pipelineReady, p3, storeReady);
      var (result, ok) := Acquired(limit, c, pipelineReady, storeReady);
      c4 == result && p4 == (if ok then Handling else Away)
  {
  }

  class Status {
    const limit: nat
    var permits: nat
    var inFlight: int
    var rejected: nat
    var pipelineReady: bool

    ghost predicate Valid() reads this {
      permits <= limit
    }

    function State(): Counters reads this {
      Counters(permits, inFlight, rejected)
    }

    constructor (limit: nat)
      ensures this.limit == limit && Valid() && State() == Counters(0, 0, 0) && !pipelineReady
    {
      this.limit, permits, inFlight, rejected, pipelineReady := limit, 0, 0, 0, false;
    }

    method Acquire(storeReady: bool) returns (ok: bool)
      requires Valid()
      modifies this
      ensures Valid() && pipelineReady == old(pipelineReady)
      ensures (State(), ok) == Acquired(limit, old(State()), pipelineReady, storeReady)
    {
      if !pipelineReady || !storeReady {
        rejected := rejected + 1;
        return false;
      }
      if permits < limit {
        permits := permits + 1;
        inFlight := inFlight + 1;
        return true;
      }
      rejected := rejected + 1;
      return false;
    }

    /** Gives back the permit of an acquired request. */
    method Release()
      requires Valid() && permits > 0
      modifies this
      ensures Valid() && pipelineReady == old(pipelineReady)
      ensures State() == Counters(old(permits) - 1, old(inFlight) - 1, old(rejected))
    {
      permits := permits - 1;
      inFlight := inFlight - 1;
    }

    /** A wrapped export: the permit and the count are back where they were, whatever the handler does. */
    method Wrap(limited: bool, storeReady: bool) returns (handled: bool)
      requires Valid()
      modifies this
      ensures Valid() && permits == old(permits) && inFlight == old(inFlight) && pipelineReady == old(pipelineReady)
      ensures handled <==> !limited || (pipelineReady && storeReady && permits < limit)
      ensures rejected == old(rejected) + if handled then 0 else 1
    {
      if !limited { return true; }
      handled := Acquire(storeReady);
      if handled { Release(); }
    }
  }
}
