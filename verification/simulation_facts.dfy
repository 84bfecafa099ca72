/**
 Properties of the simulation as the shop runs it: four fresh counters and the
 routing rule `Choose`. Each customer's counter is the one with the shortest
 predicted wait, or the least-loaded one with room after a redirect, or the
 full first choice with an "all full" warning; the queues hold exactly the
 customers sent to them; capacity is only exceeded under a warning; and the
 suggestions and screen messages are about the customers, one pair per
 advisory.
 */
module SimulationFacts {
  import opened Arrivals
  import opened Routing
  import opened RoutingFacts

  /** The counters customer `k` of `xs` meets on arrival. */
  function CountersBefore(init: Counters, xs: seq<Customer>, k: nat): Counters
    requires k <= |xs|
  {
    Run(init, xs[..k]).counters
  }

  /**
   Without capacity pressure at the counter with the shortest predicted wait,
   customer `k` goes there, and the recorded predicted wait is that counter's.
   */
  lemma RunToShortestWait(init: Counters, xs: seq<Customer>, k: nat)
    requires k < |xs|
    ensures var cs := CountersBefore(init, xs, k);
            var a := Run(init, xs).results[k];
            !Full(cs[Preferred(cs)]) ==>
              && 1 <= a.counter <= CounterCount
              && FirstShortestWait(cs, a.counter - 1)
              && a.queueAfterJoin == Load(cs[a.counter - 1]) + 1 <= MaxCapacity
              && a.predictedWait == PredictedWait(cs, a.counter - 1)
  {
    var cs := CountersBefore(init, xs, k);
    if !Full(cs[Preferred(cs)]) {
      RunStep(Choose, init, xs, k);
      ChooseWithRoom(cs, xs[k].id);
      PreferredIsFirstShortestWait(cs);
    }
  }

  /**
   When the counter with the shortest predicted wait is full but another has
   room, customer `k` goes to the first least-loaded counter with room, and the
   recorded predicted wait is the one that counter advertised before the
   redirect.
   */
  lemma RunRedirected(init: Counters, xs: seq<Customer>, k: nat)
    requires k < |xs|
    requires Full(CountersBefore(init, xs, k)[Preferred(CountersBefore(init, xs, k))])
    requires !AllCountersFull(CountersBefore(init, xs, k))
    ensures var cs := CountersBefore(init, xs, k);
            var a := Run(init, xs).results[k];
            && 1 <= a.counter <= CounterCount
            && FirstLeastLoadedWithRoom(cs, a.counter - 1)
            && a.queueAfterJoin == Load(cs[a.counter - 1]) + 1 <= MaxCapacity
            && a.predictedWait == PredictedWait(cs, a.counter - 1)
  {
    var cs := CountersBefore(init, xs, k);
    RunStep(Choose, init, xs, k);
    ChooseRedirects(cs, xs[k].id);
  }

  /**
   When every counter is full, customer `k` joins the counter with the
   shortest predicted wait anyway, beyond its capacity.
   */
  lemma RunAllFull(init: Counters, xs: seq<Customer>, k: nat)
    requires k < |xs|
    requires AllCountersFull(CountersBefore(init, xs, k))
    ensures var cs := CountersBefore(init, xs, k);
            var a := Run(init, xs).results[k];
            && 1 <= a.counter <= CounterCount
            && FirstShortestWait(cs, a.counter - 1)
            && a.queueAfterJoin == Load(cs[a.counter - 1]) + 1 > MaxCapacity
            && a.predictedWait == PredictedWait(cs, a.counter - 1)
  {
    var cs := CountersBefore(init, xs, k);
    RunStep(Choose, init, xs, k);
    ChooseAllFull(cs, xs[k].id);
    PreferredIsFirstShortestWait(cs);
  }

  /**
   The advisories customer `k` adds: none when the counter with the shortest
   predicted wait has room, a redirect naming the counter the customer was
   sent to when it is full but another has room, and an "all full" warning
   when every counter is full.
   */
  lemma RunStepAdvisories(init: Counters, xs: seq<Customer>, k: nat)
    requires k < |xs|
    ensures var cs := CountersBefore(init, xs, k);
            var a := Run(init, xs).results[k];
            Run(init, xs[..k + 1]).advisories == Run(init, xs[..k]).advisories +
              if !Full(cs[Preferred(cs)]) then []
              else if !AllCountersFull(cs) then [Redirected(xs[k].id, a.counter)]
              else [AllFull(xs[k].id)]
  {
    var cs := CountersBefore(init, xs, k);
    if !Full(cs[Preferred(cs)]) {
      QuietStep(init, xs, k);
    } else if !AllCountersFull(cs) {
      RedirectStep(init, xs, k);
    } else {
      AllFullStep(init, xs, k);
    }
  }

  lemma QuietStep(init: Counters, xs: seq<Customer>, k: nat)
    requires k < |xs|
    ensures var cs := CountersBefore(init, xs, k);
            !Full(cs[Preferred(cs)]) ==> Run(init, xs[..k + 1]).advisories == Run(init, xs[..k]).advisories
  {
    var cs := CountersBefore(init, xs, k);
    if !Full(cs[Preferred(cs)]) {
      assert Choose(cs, xs[k].id).advisories == [] by {
        ChooseWithRoom(cs, xs[k].id);
      }
      RunStepAdds(Choose, init, xs, k, []);
    }
  }

  lemma RedirectStep(init: Counters, xs: seq<Customer>, k: nat)
    requires k < |xs|
    requires Full(CountersBefore(init, xs, k)[Preferred(CountersBefore(init, xs, k))])
    requires !AllCountersFull(CountersBefore(init, xs, k))
    ensures Run(init, xs[..k + 1]).advisories ==
              Run(init, xs[..k]).advisories + [Redirected(xs[k].id, Run(init, xs).results[k].counter)]
  {
    var cs := CountersBefore(init, xs, k);
    var d := Choose(cs, xs[k].id);
    assert d.advisories == [Redirected(xs[k].id, d.index + 1)] by {
      ChooseRedirects(cs, xs[k].id);
    }
    assert Run(init, xs).results[k].counter == d.index + 1 by {
      RunStep(Choose, init, xs, k);
    }
    RunStepAdds(Choose, init, xs, k, d.advisories);
  }

  lemma AllFullStep(init: Counters, xs: seq<Customer>, k: nat)
    requires k < |xs|
    requires AllCountersFull(CountersBefore(init, xs, k))
    ensures Run(init, xs[..k + 1]).advisories == Run(init, xs[..k]).advisories + [AllFull(xs[k].id)]
  {
    var cs := CountersBefore(init, xs, k);
    assert Choose(cs, xs[k].id).advisories == [AllFull(xs[k].id)] by {
      ChooseAllFull(cs, xs[k].id);
    }
    RunStepAdds(Choose, init, xs, k, [AllFull(xs[k].id)]);
  }

  /**
   A run in which every customer finds room at the counter with the shortest
   predicted wait raises no advisory at all.
   */
  lemma {:induction false} QuietRun(init: Counters, xs: seq<Customer>)
    requires forall k :: 0 <= k < |xs| ==> !Full(CountersBefore(init, xs, k)[Preferred(CountersBefore(init, xs, k))])
    ensures Run(init, xs).advisories == []
    decreases |xs|
  {
    if |xs| > 0 {
      var n := |xs| - 1;
      forall k | 0 <= k < n
        ensures !Full(CountersBefore(init, xs[..n], k)[Preferred(CountersBefore(init, xs[..n], k))])
      {
        assert xs[..n][..k] == xs[..k];
        assert CountersBefore(init, xs[..n], k) == CountersBefore(init, xs, k);
      }
      QuietRun(init, xs[..n]);
      QuietStep(init, xs, n);
      assert xs[..n + 1] == xs;
    }
  }

  /**
   If no counter ever holds `MaxCapacity` customers (queues only grow, so
   none does at the end), there are no suggestions and no screen messages,
   and every reported queue length stays below `MaxCapacity`.
   */
  lemma SimulateQuietWhileNoCounterFull(xs: seq<Customer>)
    requires forall i :: 0 <= i < CounterCount ==> Load(Run(Fresh(), xs).counters[i]) < MaxCapacity
    ensures var r := SimulateMultiCounter(xs);
            && r.1 == [] && r.2 == []
            && forall k :: 0 <= k < |xs| ==> r.0[k].queueAfterJoin < MaxCapacity
  {
    var o := Run(Fresh(), xs);
    forall k | 0 <= k < |xs|
      ensures !Full(CountersBefore(Fresh(), xs, k)[Preferred(CountersBefore(Fresh(), xs, k))])
    {
      RunLoadsGrow(Choose, Fresh(), xs, k, Preferred(CountersBefore(Fresh(), xs, k)));
    }
    QuietRun(Fresh(), xs);
    forall k | 0 <= k < |xs|
      ensures o.results[k].queueAfterJoin < MaxCapacity
    {
      JoinAtMostFinalLoad(Choose, Fresh(), xs, k);
    }
  }

  /** From fresh counters, each queue holds exactly the ids of the customers sent to it, in order, and nobody else. */
  lemma SimulateQueues(xs: seq<Customer>)
    ensures var rs := SimulateMultiCounter(xs).0;
            var cs := Run(Fresh(), xs).counters;
            && (forall i :: 0 <= i < CounterCount ==> cs[i].queue == IdsAt(rs, i + 1))
            && TotalQueued(cs) == |xs|
  {
    RunQueues(Choose, Fresh(), xs);
    RunTotalQueued(Choose, Fresh(), xs);
  }

  /**
   Timing of every customer: a non-negative wait, and service from arrival
   plus wait for the chosen counter's service time.
   */
  lemma SimulateTiming(xs: seq<Customer>, k: nat)
    requires k < |xs|
    ensures var a := SimulateMultiCounter(xs).0[k];
            && 1 <= a.counter <= CounterCount
            && a.wait >= 0.0
            && a.start == a.arrival + a.wait >= a.arrival
            && a.end == a.start + ServiceTimes[a.counter - 1]
  {
    RunTiming(Choose, Fresh(), xs, k);
  }

  /** A later customer at the same counter starts no earlier than an earlier one there ends. */
  lemma SimulateSerial(xs: seq<Customer>, k1: nat, k2: nat)
    requires k1 < k2 < |xs|
    requires SimulateMultiCounter(xs).0[k1].counter == SimulateMultiCounter(xs).0[k2].counter
    ensures SimulateMultiCounter(xs).0[k2].start >= SimulateMultiCounter(xs).0[k1].end
  {
    SerialService(Choose, Fresh(), xs, k1, k2);
  }

  /** The queue length reported for a customer is its place in that counter's queue. */
  lemma SimulateQueuePlace(xs: seq<Customer>, k: nat)
    requires k < |xs|
    ensures var rs := SimulateMultiCounter(xs).0;
            rs[k].queueAfterJoin == |IdsAt(rs[..k + 1], rs[k].counter)|
  {
    QueueAfterJoinCounts(Choose, Fresh(), xs, k);
  }

  /**
   The queue length reported for the last customer sent to a counter is that
   counter's queue length at the end of the simulation.
   */
  lemma SimulateLastJoinIsQueueLength(xs: seq<Customer>, k: nat)
    requires k < |xs|
    requires forall j :: k < j < |xs| ==> SimulateMultiCounter(xs).0[j].counter != SimulateMultiCounter(xs).0[k].counter
    ensures var rs := SimulateMultiCounter(xs).0;
            && 1 <= rs[k].counter <= CounterCount
            && rs[k].queueAfterJoin == Load(Run(Fresh(), xs).counters[rs[k].counter - 1])
  {
    var rs := SimulateMultiCounter(xs).0;
    var n := rs[k].counter;
    SimulateQueuePlace(xs, k);
    RunTiming(Choose, Fresh(), xs, k);
    SimulateQueues(xs);
    IdsAtIgnoresOthers(rs, k + 1, n);
  }

  /** While at most `MaxCapacity` customers have come, nobody is redirected and no message is shown. */
  lemma SimulateQuietWhileRoom(xs: seq<Customer>)
    requires |xs| <= MaxCapacity
    ensures SimulateMultiCounter(xs).1 == [] && SimulateMultiCounter(xs).2 == []
  {
    ChooseQuietBelowCapacity();
    NoAdvisoriesBelowCapacity(Choose, Fresh(), xs);
  }

  /** A customer who makes a queue longer than `MaxCapacity` was told that every counter was full. */
  lemma SimulateCapacity(xs: seq<Customer>, k: nat)
    requires k < |xs|
    ensures var r := SimulateMultiCounter(xs);
            r.0[k].queueAfterJoin <= MaxCapacity || MustWait(xs[k].id) in r.1
  {
    var o := Run(Fresh(), xs);
    ChooseKeepsCapacity();
    CapacityUnlessAllFull(Choose, Fresh(), xs, k);
    if AllFull(xs[k].id) in o.advisories {
      var j :| 0 <= j < |o.advisories| && o.advisories[j] == AllFull(xs[k].id);
      assert SimulateMultiCounter(xs).1[j] == MustWait(xs[k].id);
    }
  }

  /**
   There are at most as many suggestions as customers, and each is about one
   of them: a redirect notice naming the counter that customer was assigned to,
   or an "all full" warning.
   */
  lemma SimulateMessagesNameCustomers(xs: seq<Customer>)
    ensures var r := SimulateMultiCounter(xs);
            && |r.1| <= |xs|
            && forall j :: 0 <= j < |r.1| ==>
                 (exists k :: 0 <= k < |xs| &&
                    (r.1[j] == RedirectNotice(xs[k].id, r.0[k].counter) || r.1[j] == MustWait(xs[k].id)))
  {
    var o := Run(Fresh(), xs);
    var r := SimulateMultiCounter(xs);
    ChooseAnnounces();
    AdvisoriesNameCustomers(Choose, Fresh(), xs);
    forall j | 0 <= j < |r.1|
      ensures exists k :: 0 <= k < |xs| &&
                (r.1[j] == RedirectNotice(xs[k].id, r.0[k].counter) || r.1[j] == MustWait(xs[k].id))
    {
      var k :| 0 <= k < |xs| && Names(o.advisories[j], xs[k], o.results[k]);
      assert r.1[j] == Suggestion(o.advisories[j]);
    }
  }
}
