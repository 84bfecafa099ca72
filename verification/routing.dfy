/**
 Routing simulation: customers, in arrival order, are sent one at a time to
 one of four service counters.

 Each customer goes to the counter with the shortest predicted wait (queue
 length times service time; the lowest-numbered counter on a tie). If that
 counter already holds its capacity of 5, the customer is redirected to the
 counter with room that holds the fewest (lowest-numbered on a tie); if no
 counter has room, the customer stays with the full counter and an
 "all counters full" advisory is raised. Each counter serves one customer at
 a time, in order of assignment.

 The simulation is a left fold over the customers threading the four
 counters; only the counter chosen for a customer changes at its step.
 */
module Routing {
  import opened Arrivals

  const CounterCount := 4

  /** The most customers a counter takes before later customers are redirected. */
  const MaxCapacity := 5

  /** Service time of counters 1 to 4. */
  const ServiceTimes: seq<real> := [3.5, 5.0, 4.0, 3.0]

  /**
   A service counter: when it is next free and the ids that joined it. Counter
   `i` serves each customer in `ServiceTimes[i]`.
   */
  datatype Counter = Counter(freeAt: real, queue: seq<int>)

  /** The four counters, counter 1 first. */
  type Counters = s: seq<Counter> | |s| == 4
    witness [Counter(0.0, []), Counter(0.0, []), Counter(0.0, []), Counter(0.0, [])]

  /**
   Raised when the preferred counter is full: either the customer was sent to
   `counter` instead (numbered 1 to 4), or every counter was full.
   */
  datatype Advisory = Redirected(customer: int, counter: nat) | AllFull(customer: int)

  /** What happened to one customer; `counter` is numbered 1 to 4. */
  datatype Assignment = Assignment(
    id: int, arrival: real, start: real, end: real, wait: real,
    counter: nat, queueAfterJoin: nat, predictedWait: real)

  /** A counter position, 0 to 3 (counter 1 to 4). */
  type CounterIndex = k: nat | k < CounterCount

  /** Which counter a customer ends up at and the advisories raised on the way. */
  datatype Choice = Choice(index: CounterIndex, advisories: seq<Advisory>)

  /** A routing rule: where a customer with a given id goes, given the counters. */
  type Rule = (Counters, int) -> Choice

  /** The counters after one customer, that customer's assignment and its advisories. */
  datatype StepResult = StepResult(counters: Counters, assignment: Assignment, advisories: seq<Advisory>)

  /** The counters after a run, the assignments in customer order and all advisories raised. */
  datatype Outcome = Outcome(counters: Counters, results: seq<Assignment>, advisories: seq<Advisory>)

  /** The two lines an advisory is shown as: a suggestion and a screen message. */
  datatype Message =
    | RedirectNotice(customer: int, counter: nat)   // the customer was redirected to the counter
    | HasSpace(counter: nat)                        // the counter has space; people should move there
    | MustWait(customer: int)                       // every counter is full; the customer must wait

  /** The four counters before the first customer: free at time 0, nobody queued. */
  function Fresh(): (cs: Counters)
    ensures forall i :: 0 <= i < CounterCount ==> cs[i] == Counter(0.0, [])
  {
    [Counter(0.0, []), Counter(0.0, []), Counter(0.0, []), Counter(0.0, [])]
  }

  function Load(c: Counter): nat {
    |c.queue|
  }

  predicate Full(c: Counter) {
    Load(c) >= MaxCapacity
  }

  predicate AllCountersFull(cs: Counters) {
    forall i :: 0 <= i < CounterCount ==> Full(cs[i])
  }

  /** The wait counter `i` advertises: everyone queued there, times its service time. */
  function PredictedWait(cs: Counters, i: nat): real
    requires i < CounterCount
  {
    (Load(cs[i]) as real) * ServiceTimes[i]
  }

  /** Total customers queued over all counters. */
  function TotalQueued(cs: Counters): nat {
    Load(cs[0]) + Load(cs[1]) + Load(cs[2]) + Load(cs[3])
  }

  /** Counter `k` has the shortest predicted wait and no counter before it ties. */
  ghost predicate FirstShortestWait(cs: Counters, k: nat) {
    && k < CounterCount
    && (forall j :: 0 <= j < CounterCount ==> PredictedWait(cs, k) <= PredictedWait(cs, j))
    && (forall j :: 0 <= j < k ==> PredictedWait(cs, j) > PredictedWait(cs, k))
  }

  /** Counter `k` has room and the fewest queued among those with room; no earlier one with room ties. */
  ghost predicate FirstLeastLoadedWithRoom(cs: Counters, k: nat) {
    && k < CounterCount
    && !Full(cs[k])
    && (forall j :: 0 <= j < CounterCount && !Full(cs[j]) ==> Load(cs[k]) <= Load(cs[j]))
    && (forall j :: 0 <= j < k && !Full(cs[j]) ==> Load(cs[j]) > Load(cs[k]))
  }

  /** The smallest value of `ws`. */
  function Min(ws: seq<real>): (m: real)
    requires |ws| > 0
    ensures m in ws
    decreases |ws|
  {
    if |ws| == 1 then ws[0]
    else
      var m := Min(ws[1..]);
      if ws[0] <= m then ws[0] else m
  }

  lemma {:induction false} MinIsLeast(ws: seq<real>)
    requires |ws| > 0
    ensures forall j :: 0 <= j < |ws| ==> Min(ws) <= ws[j]
    decreases |ws|
  {
    if |ws| > 1 {
      MinIsLeast(ws[1..]);
      assert forall j :: 1 <= j < |ws| ==> ws[j] == ws[1..][j - 1];
    }
  }

  /** The position of the first occurrence of `x` in `ws`. */
  function IndexOf(ws: seq<real>, x: real): (k: nat)
    requires x in ws
    ensures k < |ws|
    decreases |ws|
  {
    if ws[0] == x then 0
    else
      assert x in ws[1..];
      1 + IndexOf(ws[1..], x)
  }

  lemma {:induction false} IndexOfIsFirst(ws: seq<real>, x: real)
    requires x in ws
    ensures ws[IndexOf(ws, x)] == x
    ensures forall j :: 0 <= j < IndexOf(ws, x) ==> ws[j] != x
    decreases |ws|
  {
    if ws[0] != x {
      assert x in ws[1..];
      IndexOfIsFirst(ws[1..], x);
      assert forall j :: 1 <= j < |ws| ==> ws[j] == ws[1..][j - 1];
    }
  }

  /** The first position holding the smallest value: `ws.index(min(ws))`. */
  function ArgMin(ws: seq<real>): (k: nat)
    requires |ws| > 0
    ensures k < |ws|
  {
    IndexOf(ws, Min(ws))
  }

  /** `ArgMin` is the first position whose value no other value undercuts. */
  lemma ArgMinIsFirstMin(ws: seq<real>)
    requires |ws| > 0
    ensures forall j :: 0 <= j < |ws| ==> ws[ArgMin(ws)] <= ws[j]
    ensures forall j :: 0 <= j < ArgMin(ws) ==> ws[j] > ws[ArgMin(ws)]
  {
    MinIsLeast(ws);
    IndexOfIsFirst(ws, Min(ws));
  }

  /** The predicted wait of each counter, counter 1 first. */
  function PredictedWaits(cs: Counters): (ws: seq<real>)
    ensures |ws| == CounterCount
    ensures forall i :: 0 <= i < CounterCount ==> ws[i] == PredictedWait(cs, i)
  {
    [PredictedWait(cs, 0), PredictedWait(cs, 1), PredictedWait(cs, 2), PredictedWait(cs, 3)]
  }

  /** The counter a customer is first sent to. */
  function Preferred(cs: Counters): (k: nat)
    ensures k < CounterCount
  {
    ArgMin(PredictedWaits(cs))
  }

  /** The first choice is the first counter with the shortest predicted wait. */
  lemma PreferredIsFirstShortestWait(cs: Counters)
    ensures FirstShortestWait(cs, Preferred(cs))
  {
    ArgMinIsFirstMin(PredictedWaits(cs));
  }

  /** The counters from `i` on that have room, in ascending order. */
  function AvailableFrom(cs: Counters, i: nat): (av: seq<CounterIndex>)
    requires i <= CounterCount
    ensures |av| <= CounterCount - i
    decreases CounterCount - i
  {
    if i == CounterCount then []
    else if !Full(cs[i]) then [i] + AvailableFrom(cs, i + 1)
    else AvailableFrom(cs, i + 1)
  }

  /** Every counter `AvailableFrom` lists has room... */
  lemma {:induction false} AvailableFromHasRoom(cs: Counters, i: nat)
    requires i <= CounterCount
    ensures forall j :: 0 <= j < |AvailableFrom(cs, i)| ==> !Full(cs[AvailableFrom(cs, i)[j]])
    decreases CounterCount - i
  {
    if i < CounterCount {
      AvailableFromHasRoom(cs, i + 1);
      var rest := AvailableFrom(cs, i + 1);
      if !Full(cs[i]) {
        assert forall j :: 1 <= j < |rest| + 1 ==> ([i] + rest)[j] == rest[j - 1];
      }
    }
  }

  /** ...and every counter from `i` on with room is listed. */
  lemma {:induction false} AvailableFromComplete(cs: Counters, i: nat)
    requires i <= CounterCount
    ensures forall c :: i <= c < CounterCount && !Full(cs[c]) ==> c in AvailableFrom(cs, i)
    decreases CounterCount - i
  {
    if i < CounterCount {
      AvailableFromComplete(cs, i + 1);
      var av, rest := AvailableFrom(cs, i), AvailableFrom(cs, i + 1);
      forall c | i <= c < CounterCount && !Full(cs[c])
        ensures c in av
      {
        if c == i {
          assert av[0] == i;
        } else {
          assert c in rest;
          if !Full(cs[i]) {
            assert av[1..] == rest;
          }
        }
      }
    }
  }

  /** `AvailableFrom` lists exactly the counters from `i` on that have room. */
  lemma AvailableFromExact(cs: Counters, i: nat)
    requires i <= CounterCount
    ensures forall j :: 0 <= j < |AvailableFrom(cs, i)| ==> !Full(cs[AvailableFrom(cs, i)[j]])
    ensures forall c :: i <= c < CounterCount && !Full(cs[c]) ==> c in AvailableFrom(cs, i)
  {
    AvailableFromHasRoom(cs, i);
    AvailableFromComplete(cs, i);
  }

  /** The counters with room are listed in ascending order, all from `i` on. */
  lemma {:induction false} AvailableFromAscending(cs: Counters, i: nat)
    requires i <= CounterCount
    ensures forall j :: 0 <= j < |AvailableFrom(cs, i)| ==> i <= AvailableFrom(cs, i)[j]
    ensures forall a, b :: 0 <= a < b < |AvailableFrom(cs, i)| ==> AvailableFrom(cs, i)[a] < AvailableFrom(cs, i)[b]
    decreases CounterCount - i
  {
    if i < CounterCount {
      AvailableFromAscending(cs, i + 1);
      var av, rest := AvailableFrom(cs, i), AvailableFrom(cs, i + 1);
      if !Full(cs[i]) {
        assert av == [i] + rest;
        forall j | 0 < j < |av|
          ensures i < av[j]
        {
          assert av[j] == rest[j - 1];
          assert i + 1 <= rest[j - 1];
        }
        forall a, b | 0 <= a < b < |av|
          ensures av[a] < av[b]
        {
          assert av[b] == rest[b - 1];
          if a > 0 {
            assert av[a] == rest[a - 1];
            assert rest[a - 1] < rest[b - 1];
          }
        }
      } else {
        assert av == rest;
      }
    }
  }

  /** The queue lengths of the counters `av`, as compared when redirecting. */
  function LoadsOf(cs: Counters, av: seq<CounterIndex>): (ls: seq<real>)
    ensures |ls| == |av|
    decreases |av|
  {
    if |av| == 0 then [] else [Load(cs[av[0]]) as real] + LoadsOf(cs, av[1..])
  }

  lemma {:induction false} LoadsOfAt(cs: Counters, av: seq<CounterIndex>)
    ensures forall j :: 0 <= j < |av| ==> LoadsOf(cs, av)[j] == Load(cs[av[j]]) as real
    decreases |av|
  {
    if |av| > 0 {
      LoadsOfAt(cs, av[1..]);
      assert forall j :: 1 <= j < |av| ==> LoadsOf(cs, av)[j] == LoadsOf(cs, av[1..])[j - 1];
    }
  }

  /**
   The counter a customer with room among `av` is redirected to: the first in
   `av` holding the fewest customers.
   */
  function LeastLoaded(cs: Counters, av: seq<CounterIndex>): (k: CounterIndex)
    requires |av| > 0
    ensures k in av
  {
    av[ArgMin(LoadsOf(cs, av))]
  }

  /**
   Where a customer goes: the counter with the shortest predicted wait if it
   has room; otherwise the least-loaded counter with room, with a redirect
   advisory; and when every counter is full, the first choice after all, with
   an "all full" advisory.
   */
  function Choose(cs: Counters, id: int): (d: Choice)
    ensures |d.advisories| <= 1
  {
    var first := Preferred(cs);
    if !Full(cs[first]) then Choice(first, [])
    else
      var av := AvailableFrom(cs, 0);
      if |av| > 0 then
        var k := LeastLoaded(cs, av);
        Choice(k, [Redirected(id, k + 1)])
      else
        Choice(first, [AllFull(id)])
  }

  /** When the counter with the shortest predicted wait has room, the customer goes there, silently. */
  lemma ChooseWithRoom(cs: Counters, id: int)
    requires !Full(cs[Preferred(cs)])
    ensures Choose(cs, id) == Choice(Preferred(cs), [])
  {
  }

  /**
   When the counter with the shortest predicted wait is full but some counter
   has room, the customer is redirected to the first least-loaded counter with
   room, and one redirect advisory names it.
   */
  lemma ChooseRedirects(cs: Counters, id: int)
    requires Full(cs[Preferred(cs)]) && !AllCountersFull(cs)
    ensures FirstLeastLoadedWithRoom(cs, Choose(cs, id).index)
    ensures Choose(cs, id).advisories == [Redirected(id, Choose(cs, id).index + 1)]
  {
    SomeCounterWithRoom(cs);
    LeastLoadedIsFirstWithRoom(cs, AvailableFrom(cs, 0));
  }

  lemma SomeCounterWithRoom(cs: Counters)
    requires !AllCountersFull(cs)
    ensures |AvailableFrom(cs, 0)| > 0
  {
    AvailableFromExact(cs, 0);
    var c :| 0 <= c < CounterCount && !Full(cs[c]);
    assert c in AvailableFrom(cs, 0);
  }

  /** Among the counters with room, `LeastLoaded` picks the first least-loaded one. */
  lemma LeastLoadedIsFirstWithRoom(cs: Counters, av: seq<CounterIndex>)
    requires av == AvailableFrom(cs, 0) && |av| > 0
    ensures FirstLeastLoadedWithRoom(cs, LeastLoaded(cs, av))
  {
    AvailableFromExact(cs, 0);
    AvailableFromAscending(cs, 0);
    var ls := LoadsOf(cs, av);
    LoadsOfAt(cs, av);
    ArgMinIsFirstMin(ls);
    FirstMinLoadIsFirstWithRoom(cs, av, ls, ArgMin(ls));
  }

  /** When every counter is full, the customer stays with the first choice and an "all full" advisory is raised. */
  lemma ChooseAllFull(cs: Counters, id: int)
    requires AllCountersFull(cs)
    ensures Choose(cs, id) == Choice(Preferred(cs), [AllFull(id)])
  {
    AvailableFromExact(cs, 0);
  }

  /** A customer is placed at a full counter only when every counter is full. */
  lemma ChooseRespectsCapacity(cs: Counters, id: int)
    ensures !Full(cs[Choose(cs, id).index]) || Choose(cs, id).advisories == [AllFull(id)]
  {
    if Full(cs[Preferred(cs)]) && !AllCountersFull(cs) {
      ChooseRedirects(cs, id);
    } else if AllCountersFull(cs) {
      ChooseAllFull(cs, id);
    }
  }

  /** Which advisory a customer raises is decided by whether the first choice, and then every counter, is full. */
  lemma ChooseAdvisories(cs: Counters, id: int)
    ensures var d := Choose(cs, id);
            d.advisories ==
              if !Full(cs[Preferred(cs)]) then []
              else if !AllCountersFull(cs) then [Redirected(id, d.index + 1)]
              else [AllFull(id)]
  {
    if Full(cs[Preferred(cs)]) && !AllCountersFull(cs) {
      ChooseRedirects(cs, id);
    } else if AllCountersFull(cs) {
      ChooseAllFull(cs, id);
    }
  }

  /** Only one counter can be the first with the shortest predicted wait. */
  lemma FirstShortestWaitUnique(cs: Counters)
    ensures forall p: nat, q: nat :: FirstShortestWait(cs, p) && FirstShortestWait(cs, q) ==> p == q
  {
    forall p: nat, q: nat | FirstShortestWait(cs, p) && FirstShortestWait(cs, q)
      ensures p == q
    {
      assert PredictedWait(cs, p) <= PredictedWait(cs, q) && PredictedWait(cs, q) <= PredictedWait(cs, p);
    }
  }

  /** The first choice is counter `p` exactly when `p` is the first with the shortest predicted wait. */
  lemma PreferredIff(cs: Counters, p: nat)
    ensures Preferred(cs) == p <==> FirstShortestWait(cs, p)
  {
    PreferredIsFirstShortestWait(cs);
    FirstShortestWaitUnique(cs);
  }

  /** Only one counter can be the first least-loaded counter with room. */
  lemma FirstLeastLoadedWithRoomUnique(cs: Counters, p: nat, q: nat)
    requires FirstLeastLoadedWithRoom(cs, p) && FirstLeastLoadedWithRoom(cs, q)
    ensures p == q
  {
    assert Load(cs[p]) <= Load(cs[q]) && Load(cs[q]) <= Load(cs[p]);
  }

  /**
   Taking, among the counters with room listed in ascending order, the first
   position of the smallest queue length picks the first least-loaded counter
   with room.
   */
  lemma FirstMinLoadIsFirstWithRoom(cs: Counters, av: seq<CounterIndex>, ls: seq<real>, p: nat)
    requires forall j :: 0 <= j < |av| ==> !Full(cs[av[j]])
    requires forall c :: 0 <= c < CounterCount && !Full(cs[c]) ==> c in av
    requires forall a, b :: 0 <= a < b < |av| ==> av[a] < av[b]
    requires |ls| == |av| && forall j :: 0 <= j < |av| ==> ls[j] == Load(cs[av[j]]) as real
    requires p < |ls|
    requires forall j :: 0 <= j < |ls| ==> ls[p] <= ls[j]
    requires forall j :: 0 <= j < p ==> ls[j] > ls[p]
    ensures FirstLeastLoadedWithRoom(cs, av[p])
  {
    var k := av[p];
    forall j | 0 <= j < CounterCount && !Full(cs[j])
      ensures Load(cs[k]) <= Load(cs[j])
      ensures j < k ==> Load(cs[j]) > Load(cs[k])
    {
      assert j in av;
      var q :| 0 <= q < |av| && av[q] == j;
      assert ls[p] <= ls[q];
      if j < k {
        assert q < p;
        assert ls[q] > ls[p];
      }
    }
  }

  /**
   Serving one customer at the counter `d` names: wait until both the customer
   has arrived and the counter is free, be served for the counter's service
   time, and join the back of that counter's queue; `d`'s advisories are passed on.
   */
  function Serve(cs: Counters, c: Customer, d: Choice): (s: StepResult)
    ensures s.assignment.id == c.id && s.assignment.arrival == c.arrival
    ensures s.assignment.counter == d.index + 1
    ensures s.advisories == d.advisories
  {
    var k := d.index;
    var counter := cs[k];
    var wait := if counter.freeAt - c.arrival > 0.0 then counter.freeAt - c.arrival else 0.0;
    var start := c.arrival + wait;
    var end := start + ServiceTimes[k];
    var joined := Counter(end, counter.queue + [c.id]);
    StepResult(
      cs[k := joined],
      Assignment(c.id, c.arrival, start, end, wait, k + 1, |joined.queue|, PredictedWaits(cs)[k]),
      d.advisories)
  }

  /**
   Only the chosen counter changes: it becomes free at the customer's end of
   service and the customer joins the back of its queue.
   */
  lemma ServeCounter(cs: Counters, c: Customer, d: Choice, i: CounterIndex)
    ensures var s := Serve(cs, c, d);
            s.counters[i] == if i == d.index then Counter(s.assignment.end, cs[i].queue + [c.id]) else cs[i]
  {
  }

  /**
   Timing of a step: the wait is never negative and is exactly the time the
   chosen counter stays busy after the arrival, if any; service starts when both
   the customer and the counter are ready and lasts the counter's service time.
   */
  lemma ServeTiming(cs: Counters, c: Customer, d: Choice)
    ensures var a := Serve(cs, c, d).assignment;
            var k := d.index;
            && a.wait >= 0.0 && a.wait >= cs[k].freeAt - c.arrival
            && (a.wait == 0.0 || a.wait == cs[k].freeAt - c.arrival)
            && a.start == c.arrival + a.wait
            && a.start >= cs[k].freeAt && a.start >= c.arrival
            && (a.start == cs[k].freeAt || a.start == c.arrival)
            && a.end == a.start + ServiceTimes[k]
            && a.end > cs[k].freeAt
  {
  }

  /** A customer who finds the chosen counter already free is served on arrival, without waiting. */
  lemma ServeIdleCounter(cs: Counters, c: Customer, d: Choice)
    requires cs[d.index].freeAt <= c.arrival
    ensures var a := Serve(cs, c, d).assignment;
            a.wait == 0.0 && a.start == c.arrival && a.end == c.arrival + ServiceTimes[d.index]
  {
  }

  /**
   What a step reports: the queue length after joining and the predicted wait
   the chosen counter advertised before the customer joined.
   */
  lemma ServeReport(cs: Counters, c: Customer, d: Choice)
    ensures var a := Serve(cs, c, d).assignment;
            && a.queueAfterJoin == Load(cs[d.index]) + 1
            && a.predictedWait == PredictedWait(cs, d.index)
  {
  }

  /**
   The customers `xs` processed in order from the counters `init`, each routed
   by `rule` and then served: a left fold collecting the assignments and the
   advisories.
   */
  function RunWith(rule: Rule, init: Counters, xs: seq<Customer>): (o: Outcome)
    ensures |o.results| == |xs|
    decreases |xs|
  {
    if |xs| == 0 then Outcome(init, [], [])
    else
      var prior := RunWith(rule, init, xs[..|xs| - 1]);
      var x := xs[|xs| - 1];
      var s := Serve(prior.counters, x, rule(prior.counters, x.id));
      Outcome(s.counters, prior.results + [s.assignment], prior.advisories + s.advisories)
  }

  /** Assignment `k` of a run is for customer `k`, with that customer's id and arrival time. */
  lemma {:induction false} RunKeepsCustomers(rule: Rule, init: Counters, xs: seq<Customer>)
    ensures var rs := RunWith(rule, init, xs).results;
            forall k :: 0 <= k < |xs| ==> rs[k].id == xs[k].id && rs[k].arrival == xs[k].arrival
    decreases |xs|
  {
    if |xs| > 0 {
      var n := |xs| - 1;
      RunKeepsCustomers(rule, init, xs[..n]);
      var prior := RunWith(rule, init, xs[..n]).results;
      var rs := RunWith(rule, init, xs).results;
      forall k | 0 <= k < |xs|
        ensures rs[k].id == xs[k].id && rs[k].arrival == xs[k].arrival
      {
        if k < n {
          assert rs[k] == prior[k] && xs[k] == xs[..n][k];
        }
      }
    }
  }

  /** The simulation loop with the routing rule above. */
  function Run(init: Counters, xs: seq<Customer>): (o: Outcome)
    ensures |o.results| == |xs|
  {
    RunWith(Choose, init, xs)
  }

  /** The suggestion line of an advisory. */
  function Suggestion(a: Advisory): (m: Message)
    ensures !m.HasSpace? && m.customer == a.customer
  {
    match a
    case Redirected(c, n) => RedirectNotice(c, n)
    case AllFull(c) => MustWait(c)
  }

  /** The screen line of an advisory; an "all full" warning is shown as written in the suggestions. */
  function Screen(a: Advisory): (m: Message)
    ensures Paired(Suggestion(a), m)
  {
    match a
    case Redirected(_, n) => HasSpace(n)
    case AllFull(c) => MustWait(c)
  }

  /**
   A suggestion and a screen message shown for the same advisory: a redirect
   notice is paired with "counter n has space" for the same counter, and an
   "all full" warning with itself.
   */
  predicate Paired(suggestion: Message, screen: Message) {
    || (suggestion.RedirectNotice? && screen == HasSpace(suggestion.counter))
    || (suggestion.MustWait? && screen == suggestion)
  }

  /** Distinct advisories give distinct suggestion lines: a suggestion tells which advisory it shows. */
  lemma SuggestionIdentifies(a: Advisory, b: Advisory)
    ensures Suggestion(a) == Suggestion(b) <==> a == b
  {
  }

  /**
   The simulation from fresh counters: the assignments, the suggestions and
   the screen messages. The two message lists come from one list of
   advisories, so they pair up one to one.
   */
  function SimulateMultiCounter(xs: seq<Customer>): (r: (seq<Assignment>, seq<Message>, seq<Message>))
    ensures |r.0| == |xs|
    ensures |r.1| == |r.2|
    ensures forall k :: 0 <= k < |r.1| ==> Paired(r.1[k], r.2[k])
    ensures forall k :: 0 <= k < |xs| ==> r.0[k].id == xs[k].id && r.0[k].arrival == xs[k].arrival
    ensures xs == [] ==> r == ([], [], [])
  {
    RunKeepsCustomers(Choose, Fresh(), xs);
    var o := Run(Fresh(), xs);
    (o.results,
     seq(|o.advisories|, k requires 0 <= k < |o.advisories| => Suggestion(o.advisories[k])),
     seq(|o.advisories|, k requires 0 <= k < |o.advisories| => Screen(o.advisories[k])))
  }
}
