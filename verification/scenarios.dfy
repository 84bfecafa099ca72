/**
 Worked examples of the routing rule and of the whole pipeline on small
 inputs, each stated as a lemma about concrete values.
 */
module Scenarios {
  import opened Arrivals
  import opened Routing

  /** Two people passing sensor 1 by time `ts` become customers 1 and 2, both arriving at `ts`. */
  lemma SensorScenario(ts: real)
    ensures CreateCustomersFromSensor([Reading(ts, [2, 0, 0, 0])]) == [Customer(1, ts), Customer(2, ts)]
  {
    var r := Reading(ts, [2, 0, 0, 0]);
    var cs := CreateCustomersFromSensor([r]);
    assert cs == ReadingCustomers(Baseline, r, FirstId) by {
      assert [r][1..] == [];
      assert Groups([r], Baseline) == ReadingGroups(Baseline, r) + [];
    }
    assert |cs| == 2 by {
      assert Increments(Baseline, r.counts) == [2, 0, 0, 0];
    }
  }

  /** The rule sends a customer to the counter with the shortest predicted wait whenever it has room. */
  ghost predicate PrefersShortestWait(rule: Rule) {
    forall cs: Counters, id: int :: !Full(cs[Preferred(cs)]) ==> rule(cs, id) == Choice(Preferred(cs), [])
  }

  lemma ChoosePrefersShortestWait()
    ensures PrefersShortestWait(Choose)
  {
    forall cs: Counters, id: int | !Full(cs[Preferred(cs)])
      ensures Choose(cs, id) == Choice(Preferred(cs), [])
    {
      ChooseWithRoom(cs, id);
    }
  }

  /**
   Two customers arriving together at time `t` at idle, empty counters: the
   first goes to counter 1, and the second, seeing counter 1 busy, to counter 2.
   Both start at once and finish after their counters' service times; nobody
   is redirected.
   */
  lemma TwoCustomersScenario(init: Counters, t: real)
    requires forall i :: 0 <= i < CounterCount ==> init[i].queue == [] && init[i].freeAt <= t
    ensures var o := Run(init, [Customer(1, t), Customer(2, t)]);
            && o.results == [Assignment(1, t, t, t + 3.5, 0.0, 1, 1, 0.0), Assignment(2, t, t, t + 5.0, 0.0, 2, 1, 0.0)]
            && o.advisories == []
  {
    ChoosePrefersShortestWait();
    TwoCustomersWith(Choose, init, t);
  }

  lemma TwoCustomersWith(rule: Rule, init: Counters, t: real)
    requires PrefersShortestWait(rule)
    requires forall i :: 0 <= i < CounterCount ==> init[i].queue == [] && init[i].freeAt <= t
    ensures var o := RunWith(rule, init, [Customer(1, t), Customer(2, t)]);
            && o.results == [Assignment(1, t, t, t + 3.5, 0.0, 1, 1, 0.0), Assignment(2, t, t, t + 5.0, 0.0, 2, 1, 0.0)]
            && o.advisories == []
  {
    var x1, x2 := Customer(1, t), Customer(2, t);
    var s1 := Serve(init, x1, rule(init, x1.id));
    FirstOfTwo(rule, init, t);
    var s2 := Serve(s1.counters, x2, rule(s1.counters, x2.id));
    SecondOfTwo(rule, s1.counters, t);
    RunTwo(rule, init, x1, x2, s1, s2);
  }

  lemma FirstOfTwo(rule: Rule, init: Counters, t: real)
    requires PrefersShortestWait(rule)
    requires forall i :: 0 <= i < CounterCount ==> init[i].queue == [] && init[i].freeAt <= t
    ensures var s := Serve(init, Customer(1, t), rule(init, 1));
            && s.assignment == Assignment(1, t, t, t + 3.5, 0.0, 1, 1, 0.0) && s.advisories == []
            && Load(s.counters[0]) == 1
            && forall i :: 1 <= i < CounterCount ==> s.counters[i].queue == [] && s.counters[i].freeAt <= t
  {
    assert FirstShortestWait(init, 0) by {
      assert forall i :: 0 <= i < CounterCount ==> PredictedWait(init, i) == 0.0;
    }
    ShortestWaitIdleStep(rule, init, Customer(1, t), 0);
  }

  lemma SecondOfTwo(rule: Rule, cs: Counters, t: real)
    requires PrefersShortestWait(rule)
    requires Load(cs[0]) == 1
    requires forall i :: 1 <= i < CounterCount ==> cs[i].queue == [] && cs[i].freeAt <= t
    ensures var s := Serve(cs, Customer(2, t), rule(cs, 2));
            s.assignment == Assignment(2, t, t, t + 5.0, 0.0, 2, 1, 0.0) && s.advisories == []
  {
    assert FirstShortestWait(cs, 1) by {
      assert PredictedWait(cs, 0) == 3.5;
      assert forall i :: 1 <= i < CounterCount ==> PredictedWait(cs, i) == 0.0;
    }
    ShortestWaitIdleStep(rule, cs, Customer(2, t), 1);
  }

  /**
   Under a rule that prefers the shortest predicted wait, a customer whose
   counter with the shortest wait has room and is already free is sent there,
   starts on arrival, joins its queue, and raises no advisory.
   */
  lemma ShortestWaitIdleStep(rule: Rule, cs: Counters, c: Customer, p: CounterIndex)
    requires PrefersShortestWait(rule)
    requires FirstShortestWait(cs, p) && !Full(cs[p]) && cs[p].freeAt <= c.arrival
    ensures var s := Serve(cs, c, rule(cs, c.id));
            var end := c.arrival + ServiceTimes[p];
            && s.assignment == Assignment(c.id, c.arrival, c.arrival, end, 0.0, p + 1, Load(cs[p]) + 1, PredictedWait(cs, p))
            && s.advisories == []
            && forall i: CounterIndex :: s.counters[i] == if i == p then Counter(end, cs[p].queue + [c.id]) else cs[i]
  {
    PreferredIff(cs, p);
    var d := rule(cs, c.id);
    assert d == Choice(p, []);
    ServeIdleCounter(cs, c, d);
    ServeReport(cs, c, d);
    forall i: CounterIndex
      ensures Serve(cs, c, d).counters[i] == if i == p then Counter(c.arrival + ServiceTimes[p], cs[p].queue + [c.id]) else cs[i]
    {
      ServeCounter(cs, c, d, i);
    }
  }

  /** Running two customers is serving the first and then the second. */
  lemma RunTwo(rule: Rule, init: Counters, x1: Customer, x2: Customer, s1: StepResult, s2: StepResult)
    requires s1 == Serve(init, x1, rule(init, x1.id))
    requires s2 == Serve(s1.counters, x2, rule(s1.counters, x2.id))
    ensures RunWith(rule, init, [x1, x2]).results == [s1.assignment, s2.assignment]
    ensures RunWith(rule, init, [x1, x2]).advisories == s1.advisories + s2.advisories
  {
    assert RunWith(rule, init, [x1]) == Outcome(s1.counters, [s1.assignment], s1.advisories) by {
      assert [x1][..0] == [];
    }
    assert [x1, x2][..1] == [x1];
  }

  /**
   Counters holding 5, 4, 4 and 5: counter 4 has the shortest predicted wait
   but is full, so the customer is redirected to counter 2, the first with
   room and the fewest queued, although counter 3 advertises a shorter wait.
   */
  lemma RedirectScenario(cs: Counters, id: int)
    requires Load(cs[0]) == 5 && Load(cs[1]) == 4 && Load(cs[2]) == 4 && Load(cs[3]) == 5
    ensures Preferred(cs) == 3
    ensures Choose(cs, id) == Choice(1, [Redirected(id, 2)])
    ensures PredictedWait(cs, 2) < PredictedWait(cs, 1)
  {
    assert PredictedWait(cs, 0) == 17.5 && PredictedWait(cs, 1) == 20.0;
    assert PredictedWait(cs, 2) == 16.0 && PredictedWait(cs, 3) == 15.0;
    PreferredIff(cs, 3);
    ChooseRedirects(cs, id);
    FirstLeastLoadedWithRoomUnique(cs, Choose(cs, id).index, 1);
  }

  /**
   Every counter full: the customer joins counter 4, the one with the shortest
   predicted wait, as its sixth customer, and is told that all counters are full.
   */
  lemma AllFullScenario(cs: Counters, c: Customer)
    requires Load(cs[0]) == 5 && Load(cs[1]) == 5 && Load(cs[2]) == 5 && Load(cs[3]) == 5
    ensures Choose(cs, c.id) == Choice(3, [AllFull(c.id)])
    ensures Serve(cs, c, Choose(cs, c.id)).assignment.queueAfterJoin == 6
  {
    assert PredictedWait(cs, 0) == 17.5 && PredictedWait(cs, 1) == 25.0;
    assert PredictedWait(cs, 2) == 20.0 && PredictedWait(cs, 3) == 15.0;
    PreferredIff(cs, 3);
    ChooseAllFull(cs, c.id);
    ServeReport(cs, c, Choose(cs, c.id));
  }
}
