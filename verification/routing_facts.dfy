/**
 Properties of the routing simulation over a whole run: a run can be split
 and resumed, every counter's queue is exactly the customers routed there,
 the reported queue length is that customer's place in the queue, each
 counter serves one customer at a time, and capacity is exceeded only when
 an "all counters full" advisory says so.

 The serving mechanism does not depend on how customers are routed, so most
 facts are stated for any routing rule; those that depend on the rule state
 what they need of it as a predicate, and `Choose` is shown to satisfy each.
 */
module RoutingFacts {
  import opened Arrivals
  import opened Routing

  /** The ids of the assignments in `rs` made to counter `n` (numbered 1 to 4), in order. */
  function IdsAt(rs: seq<Assignment>, n: nat): seq<int>
    decreases |rs|
  {
    if |rs| == 0 then []
    else IdsAt(rs[..|rs| - 1], n) + (if rs[|rs| - 1].counter == n then [rs[|rs| - 1].id] else [])
  }

  lemma IdsAtSnoc(rs: seq<Assignment>, a: Assignment, n: nat)
    ensures IdsAt(rs + [a], n) == IdsAt(rs, n) + (if a.counter == n then [a.id] else [])
  {
    assert (rs + [a])[..|rs|] == rs;
  }

  /** Assignments to other counters after position `m` add nothing to counter `n`'s ids. */
  lemma {:induction false} IdsAtIgnoresOthers(rs: seq<Assignment>, m: nat, n: nat)
    requires m <= |rs|
    requires forall j :: m <= j < |rs| ==> rs[j].counter != n
    ensures IdsAt(rs, n) == IdsAt(rs[..m], n)
    decreases |rs|
  {
    if |rs| > m {
      var last := |rs| - 1;
      assert rs[..last][..m] == rs[..m];
      IdsAtIgnoresOthers(rs[..last], m, n);
      assert IdsAt(rs, n) == IdsAt(rs[..last], n) + [];
    } else {
      assert rs[..m] == rs;
    }
  }

  lemma AppendAssoc<T>(a: seq<T>, b: seq<T>, c: seq<T>)
    ensures a + b + c == a + (b + c)
  {
  }

  /** The rule never places a customer at a full counter unless it raises an "all full" advisory. */
  ghost predicate KeepsCapacity(rule: Rule) {
    forall cs: Counters, id: int :: !Full(cs[rule(cs, id).index]) || rule(cs, id).advisories == [AllFull(id)]
  }

  /** The rule raises no advisory while fewer than `MaxCapacity` customers are queued in all. */
  ghost predicate QuietBelowCapacity(rule: Rule) {
    forall cs: Counters, id: int :: TotalQueued(cs) < MaxCapacity ==> rule(cs, id).advisories == []
  }

  /** Choice `d` for customer `id` raises no advisory, a redirect naming its counter, or "all full". */
  ghost predicate Announced(d: Choice, id: int) {
    || d.advisories == []
    || d.advisories == [Redirected(id, d.index + 1)]
    || d.advisories == [AllFull(id)]
  }

  /** The rule raises at most one advisory, about the customer routed, naming the counter it redirects to. */
  ghost predicate Announces(rule: Rule) {
    forall cs: Counters, id: int :: Announced(rule(cs, id), id)
  }

  lemma ChooseKeepsCapacity()
    ensures KeepsCapacity(Choose)
  {
    forall cs: Counters, id: int
      ensures !Full(cs[Choose(cs, id).index]) || Choose(cs, id).advisories == [AllFull(id)]
    {
      ChooseRespectsCapacity(cs, id);
    }
  }

  lemma ChooseQuietBelowCapacity()
    ensures QuietBelowCapacity(Choose)
  {
    forall cs: Counters, id: int | TotalQueued(cs) < MaxCapacity
      ensures Choose(cs, id).advisories == []
    {
      ChooseWithRoom(cs, id);
    }
  }

  lemma ChooseAnnounces()
    ensures Announces(Choose)
  {
    forall cs: Counters, id: int
      ensures Announced(Choose(cs, id), id)
    {
      ChooseAdvisories(cs, id);
    }
  }

  /**
   Running `xs` and then `ys` from where the first run stopped is the same as
   running `xs + ys`: the results and advisories are concatenated.
   */
  lemma {:induction false} RunAppend(rule: Rule, init: Counters, xs: seq<Customer>, ys: seq<Customer>)
    ensures var first := RunWith(rule, init, xs);
            var second := RunWith(rule, first.counters, ys);
            RunWith(rule, init, xs + ys) ==
              Outcome(second.counters, first.results + second.results, first.advisories + second.advisories)
    decreases |ys|
  {
    if |ys| == 0 {
      assert xs + ys == xs;
    } else {
      var ys', y := ys[..|ys| - 1], ys[|ys| - 1];
      var first := RunWith(rule, init, xs);
      RunAppend(rule, init, xs, ys');
      var before := RunWith(rule, first.counters, ys');
      var s := Serve(before.counters, y, rule(before.counters, y.id));
      assert (xs + ys)[..|xs + ys| - 1] == xs + ys';
      assert (xs + ys)[|xs + ys| - 1] == y;
      AppendAssoc(first.results, before.results, [s.assignment]);
      AppendAssoc(first.advisories, before.advisories, s.advisories);
    }
  }

  /** Running a prefix of the customers yields a prefix of the results and of the advisories. */
  lemma RunPrefix(rule: Rule, init: Counters, xs: seq<Customer>, n: nat)
    requires n <= |xs|
    ensures RunWith(rule, init, xs[..n]).results == RunWith(rule, init, xs).results[..n]
    ensures RunWith(rule, init, xs[..n]).advisories <= RunWith(rule, init, xs).advisories
  {
    RunAppend(rule, init, xs[..n], xs[n..]);
    assert xs[..n] + xs[n..] == xs;
  }

  /**
   Customer `k` is served from the counters left by the customers before it,
   and that step's assignment and advisories are what the run reports.
   */
  lemma RunAt(rule: Rule, init: Counters, xs: seq<Customer>, k: nat)
    requires k < |xs|
    ensures var before := RunWith(rule, init, xs[..k]);
            var s := Serve(before.counters, xs[k], rule(before.counters, xs[k].id));
            && RunWith(rule, init, xs[..k + 1]) ==
                 Outcome(s.counters, before.results + [s.assignment], before.advisories + s.advisories)
            && RunWith(rule, init, xs).results[k] == s.assignment
  {
    assert xs[..k + 1][..k] == xs[..k];
    RunPrefix(rule, init, xs, k + 1);
  }

  /**
   What the run reports for customer `k`, in terms of the counters left by the
   customers before it and the rule's choice there: the counter chosen, the
   queue length after joining, the predicted wait that counter advertised
   before anyone was redirected, and the advisories the step adds.
   */
  lemma RunStep(rule: Rule, init: Counters, xs: seq<Customer>, k: nat)
    requires k < |xs|
    ensures var before := RunWith(rule, init, xs[..k]);
            var d := rule(before.counters, xs[k].id);
            var a := RunWith(rule, init, xs).results[k];
            && a.counter == d.index + 1
            && a.queueAfterJoin == Load(before.counters[d.index]) + 1
            && a.predictedWait == PredictedWait(before.counters, d.index)
            && RunWith(rule, init, xs[..k + 1]).advisories == before.advisories + d.advisories
  {
    var before := RunWith(rule, init, xs[..k]);
    var d := rule(before.counters, xs[k].id);
    RunAt(rule, init, xs, k);
    ServeReport(before.counters, xs[k], d);
  }

  /** The advisories after customer `k` are those before it followed by the ones the rule raised for it. */
  lemma RunStepAdds(rule: Rule, init: Counters, xs: seq<Customer>, k: nat, added: seq<Advisory>)
    requires k < |xs|
    requires rule(RunWith(rule, init, xs[..k]).counters, xs[k].id).advisories == added
    ensures RunWith(rule, init, xs[..k + 1]).advisories == RunWith(rule, init, xs[..k]).advisories + added
  {
    RunAt(rule, init, xs, k);
  }

  /** Every queue is its starting contents followed by the ids of the customers routed to that counter. */
  lemma {:induction false} RunQueues(rule: Rule, init: Counters, xs: seq<Customer>)
    ensures forall i :: 0 <= i < CounterCount ==>
              RunWith(rule, init, xs).counters[i].queue == init[i].queue + IdsAt(RunWith(rule, init, xs).results, i + 1)
    decreases |xs|
  {
    if |xs| > 0 {
      var n := |xs| - 1;
      var prior := RunWith(rule, init, xs[..n]);
      var d := rule(prior.counters, xs[n].id);
      var s := Serve(prior.counters, xs[n], d);
      var o := RunWith(rule, init, xs);
      assert o.counters == s.counters && o.results == prior.results + [s.assignment];
      RunQueues(rule, init, xs[..n]);
      forall i | 0 <= i < CounterCount
        ensures o.counters[i].queue == init[i].queue + IdsAt(o.results, i + 1)
      {
        var before := IdsAt(prior.results, i + 1);
        assert prior.counters[i].queue == init[i].queue + before;
        IdsAtSnoc(prior.results, s.assignment, i + 1);
        ServeCounter(prior.counters, xs[n], d, i);
        if i == d.index {
          AppendAssoc(init[i].queue, before, [xs[n].id]);
        } else {
          assert before + [] == before;
        }
      }
    }
  }

  /** Every customer is assigned to exactly one counter, so the queues hold as many as there are customers. */
  lemma {:induction false} RunTotalQueued(rule: Rule, init: Counters, xs: seq<Customer>)
    ensures TotalQueued(RunWith(rule, init, xs).counters) == TotalQueued(init) + |xs|
    decreases |xs|
  {
    if |xs| > 0 {
      var n := |xs| - 1;
      var prior := RunWith(rule, init, xs[..n]);
      var d := rule(prior.counters, xs[n].id);
      RunTotalQueued(rule, init, xs[..n]);
      ServeCounter(prior.counters, xs[n], d, 0);
      ServeCounter(prior.counters, xs[n], d, 1);
      ServeCounter(prior.counters, xs[n], d, 2);
      ServeCounter(prior.counters, xs[n], d, 3);
    }
  }

  /** A counter never becomes free earlier than it was. */
  lemma {:induction false} RunFreeAtMonotone(rule: Rule, init: Counters, xs: seq<Customer>)
    ensures forall i :: 0 <= i < CounterCount ==> RunWith(rule, init, xs).counters[i].freeAt >= init[i].freeAt
    decreases |xs|
  {
    if |xs| > 0 {
      var n := |xs| - 1;
      var prior := RunWith(rule, init, xs[..n]);
      var d := rule(prior.counters, xs[n].id);
      RunFreeAtMonotone(rule, init, xs[..n]);
      ServeTiming(prior.counters, xs[n], d);
      forall i | 0 <= i < CounterCount
        ensures RunWith(rule, init, xs).counters[i].freeAt >= init[i].freeAt
      {
        ServeCounter(prior.counters, xs[n], d, i);
      }
    }
  }

  /**
   Timing of every assignment of a run: the wait is never negative, service
   starts at arrival plus wait, no earlier than arrival, and lasts the service
   time of the counter the customer was sent to.
   */
  lemma RunTiming(rule: Rule, init: Counters, xs: seq<Customer>, k: nat)
    requires k < |xs|
    ensures var a := RunWith(rule, init, xs).results[k];
            && 1 <= a.counter <= CounterCount
            && a.wait >= 0.0
            && a.start == a.arrival + a.wait
            && a.start >= a.arrival
            && a.end == a.start + ServiceTimes[a.counter - 1]
  {
    var before := RunWith(rule, init, xs[..k]);
    var d := rule(before.counters, xs[k].id);
    assert RunWith(rule, init, xs).results[k] == Serve(before.counters, xs[k], d).assignment by {
      RunAt(rule, init, xs, k);
    }
    ServeTiming(before.counters, xs[k], d);
  }

  /**
   The queue length reported with an assignment is the counter's starting
   queue plus the customers routed there so far, this one included.
   */
  lemma QueueAfterJoinCounts(rule: Rule, init: Counters, xs: seq<Customer>, k: nat)
    requires k < |xs|
    ensures var rs := RunWith(rule, init, xs).results;
            && 1 <= rs[k].counter <= CounterCount
            && rs[k].queueAfterJoin == Load(init[rs[k].counter - 1]) + |IdsAt(rs[..k + 1], rs[k].counter)|
  {
    var rs := RunWith(rule, init, xs).results;
    var before := RunWith(rule, init, xs[..k]);
    var d := rule(before.counters, xs[k].id);
    var a := Serve(before.counters, xs[k], d).assignment;
    assert rs[k] == a by {
      RunAt(rule, init, xs, k);
    }
    var i: nat := d.index;
    assert a.queueAfterJoin == Load(before.counters[i]) + 1 by {
      ServeReport(before.counters, xs[k], d);
    }
    assert before.results == rs[..k] by {
      RunPrefix(rule, init, xs, k);
    }
    assert before.counters[i].queue == init[i].queue + IdsAt(rs[..k], i + 1) by {
      RunQueues(rule, init, xs[..k]);
    }
    assert IdsAt(rs[..k + 1], i + 1) == IdsAt(rs[..k], i + 1) + [rs[k].id] by {
      assert rs[..k + 1] == rs[..k] + [rs[k]];
      IdsAtSnoc(rs[..k], rs[k], i + 1);
    }
  }

  /** After customer `k` is served, its counter is next free when that customer's service ends. */
  lemma RunEndFreesCounter(rule: Rule, init: Counters, xs: seq<Customer>, k: nat)
    requires k < |xs|
    ensures var a := RunWith(rule, init, xs).results[k];
            && 1 <= a.counter <= CounterCount
            && RunWith(rule, init, xs[..k + 1]).counters[a.counter - 1].freeAt == a.end
  {
    var before := RunWith(rule, init, xs[..k]).counters;
    var d := rule(before, xs[k].id);
    var s := Serve(before, xs[k], d);
    assert RunWith(rule, init, xs).results[k] == s.assignment && RunWith(rule, init, xs[..k + 1]).counters == s.counters by {
      RunAt(rule, init, xs, k);
    }
    ServeCounter(before, xs[k], d, d.index);
  }

  /** Customer `k` starts no earlier than its counter was free when the customer was routed. */
  lemma RunStartAfterFree(rule: Rule, init: Counters, xs: seq<Customer>, k: nat)
    requires k < |xs|
    ensures var a := RunWith(rule, init, xs).results[k];
            && 1 <= a.counter <= CounterCount
            && a.start >= RunWith(rule, init, xs[..k]).counters[a.counter - 1].freeAt
  {
    var before := RunWith(rule, init, xs[..k]).counters;
    var d := rule(before, xs[k].id);
    assert RunWith(rule, init, xs).results[k] == Serve(before, xs[k], d).assignment by {
      RunAt(rule, init, xs, k);
    }
    ServeTiming(before, xs[k], d);
  }

  /** Serving more customers never makes a counter free earlier. */
  lemma PrefixFreeAtMonotone(rule: Rule, init: Counters, xs: seq<Customer>, m: nat, n: nat, i: CounterIndex)
    requires m <= n <= |xs|
    ensures RunWith(rule, init, xs[..n]).counters[i].freeAt >= RunWith(rule, init, xs[..m]).counters[i].freeAt
  {
    var mid := RunWith(rule, init, xs[..m]).counters;
    assert RunWith(rule, init, xs[..n]).counters == RunWith(rule, mid, xs[m..n]).counters by {
      RunAppend(rule, init, xs[..m], xs[m..n]);
      assert xs[..m] + xs[m..n] == xs[..n];
    }
    RunFreeAtMonotone(rule, mid, xs[m..n]);
  }

  /** Queues only grow: a counter holds no fewer customers after more of the run. */
  lemma RunLoadsGrow(rule: Rule, init: Counters, xs: seq<Customer>, k: nat, i: CounterIndex)
    requires k <= |xs|
    ensures Load(RunWith(rule, init, xs[..k]).counters[i]) <= Load(RunWith(rule, init, xs).counters[i])
  {
    var mid := RunWith(rule, init, xs[..k]).counters;
    assert RunWith(rule, init, xs).counters == RunWith(rule, mid, xs[k..]).counters by {
      RunAppend(rule, init, xs[..k], xs[k..]);
      assert xs[..k] + xs[k..] == xs;
    }
    RunQueues(rule, mid, xs[k..]);
  }

  /**
   The queue length reported for customer `k` is its counter's length right
   after it joined, and so no more than that counter's length at the end.
   */
  lemma JoinAtMostFinalLoad(rule: Rule, init: Counters, xs: seq<Customer>, k: nat)
    requires k < |xs|
    ensures var a := RunWith(rule, init, xs).results[k];
            && 1 <= a.counter <= CounterCount
            && a.queueAfterJoin == Load(RunWith(rule, init, xs[..k + 1]).counters[a.counter - 1])
            && a.queueAfterJoin <= Load(RunWith(rule, init, xs).counters[a.counter - 1])
  {
    var before := RunWith(rule, init, xs[..k]).counters;
    var d := rule(before, xs[k].id);
    var s := Serve(before, xs[k], d);
    assert RunWith(rule, init, xs).results[k] == s.assignment && RunWith(rule, init, xs[..k + 1]).counters == s.counters by {
      RunAt(rule, init, xs, k);
    }
    ServeCounter(before, xs[k], d, d.index);
    ServeReport(before, xs[k], d);
    RunLoadsGrow(rule, init, xs, k + 1, d.index);
  }

  /**
   A counter serves one customer at a time, in order of assignment: a later
   customer at the same counter starts no earlier than an earlier one ends.
   */
  lemma SerialService(rule: Rule, init: Counters, xs: seq<Customer>, k1: nat, k2: nat)
    requires k1 < k2 < |xs|
    requires RunWith(rule, init, xs).results[k1].counter == RunWith(rule, init, xs).results[k2].counter
    ensures RunWith(rule, init, xs).results[k2].start >= RunWith(rule, init, xs).results[k1].end
  {
    var rs := RunWith(rule, init, xs).results;
    RunEndFreesCounter(rule, init, xs, k1);
    RunStartAfterFree(rule, init, xs, k2);
    PrefixFreeAtMonotone(rule, init, xs, k1 + 1, k2, rs[k1].counter - 1);
  }

  /**
   Under a rule that keeps capacity, no customer makes a counter hold more than
   its capacity unless an "all counters full" advisory was raised for that customer.
   */
  lemma CapacityUnlessAllFull(rule: Rule, init: Counters, xs: seq<Customer>, k: nat)
    requires KeepsCapacity(rule)
    requires k < |xs|
    ensures RunWith(rule, init, xs).results[k].queueAfterJoin <= MaxCapacity ||
            AllFull(xs[k].id) in RunWith(rule, init, xs).advisories
  {
    var before := RunWith(rule, init, xs[..k]);
    var d := rule(before.counters, xs[k].id);
    var s := Serve(before.counters, xs[k], d);
    var upto := RunWith(rule, init, xs[..k + 1]).advisories;
    assert RunWith(rule, init, xs).results[k] == s.assignment && upto == before.advisories + s.advisories by {
      RunAt(rule, init, xs, k);
    }
    assert upto <= RunWith(rule, init, xs).advisories by {
      RunPrefix(rule, init, xs, k + 1);
    }
    ServeReport(before.counters, xs[k], d);
    if d.advisories == [AllFull(xs[k].id)] {
      assert upto[|before.advisories|] == AllFull(xs[k].id);
      assert RunWith(rule, init, xs).advisories[|before.advisories|] == AllFull(xs[k].id);
    }
  }

  /**
   Under a rule that is quiet below capacity, no advisory is raised while at
   most `MaxCapacity` customers have been queued in all.
   */
  lemma {:induction false} NoAdvisoriesBelowCapacity(rule: Rule, init: Counters, xs: seq<Customer>)
    requires QuietBelowCapacity(rule)
    requires TotalQueued(init) + |xs| <= MaxCapacity
    ensures RunWith(rule, init, xs).advisories == []
    decreases |xs|
  {
    if |xs| > 0 {
      var n := |xs| - 1;
      var prior := RunWith(rule, init, xs[..n]);
      NoAdvisoriesBelowCapacity(rule, init, xs[..n]);
      RunTotalQueued(rule, init, xs[..n]);
      assert rule(prior.counters, xs[n].id).advisories == [];
    }
  }

  /** Advisory `a` is about customer `x`, and if it is a redirect, it names the counter of `r`. */
  ghost predicate Names(a: Advisory, x: Customer, r: Assignment) {
    a.customer == x.id && (a.Redirected? ==> a.counter == r.counter)
  }

  /** Every advisory of `o` is about one of the customers `xs`. */
  ghost predicate AdvisoriesAccounted(xs: seq<Customer>, o: Outcome) {
    && |o.results| == |xs|
    && |o.advisories| <= |xs|
    && forall j :: 0 <= j < |o.advisories| ==>
         exists k :: 0 <= k < |xs| && Names(o.advisories[j], xs[k], o.results[k])
  }

  /**
   Under a rule that announces its redirects, there are at most as many
   advisories as customers, each is about one of the customers, and a redirect
   names the counter that customer was assigned to.
   */
  lemma {:induction false} AdvisoriesNameCustomers(rule: Rule, init: Counters, xs: seq<Customer>)
    requires Announces(rule)
    ensures AdvisoriesAccounted(xs, RunWith(rule, init, xs))
    decreases |xs|
  {
    if |xs| > 0 {
      var n := |xs| - 1;
      var prior := RunWith(rule, init, xs[..n]);
      var d := rule(prior.counters, xs[n].id);
      var s := Serve(prior.counters, xs[n], d);
      var o := RunWith(rule, init, xs);
      assert o == Outcome(s.counters, prior.results + [s.assignment], prior.advisories + s.advisories);
      AdvisoriesNameCustomers(rule, init, xs[..n]);
      forall j | 0 <= j < |o.advisories|
        ensures exists k :: 0 <= k < |xs| && Names(o.advisories[j], xs[k], o.results[k])
      {
        if j < |prior.advisories| {
          var k :| 0 <= k < n && Names(prior.advisories[j], xs[..n][k], prior.results[k]);
          assert o.advisories[j] == prior.advisories[j];
          assert o.results[k] == prior.results[k];
          assert Names(o.advisories[j], xs[k], o.results[k]);
        } else {
          assert o.advisories[j] == s.advisories[0];
          assert o.results[n] == s.assignment;
          assert Names(o.advisories[j], xs[n], o.results[n]);
        }
      }
    }
  }
}
