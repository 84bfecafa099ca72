# Smart queue routing: a Dafny model

This project models the two core steps of the smart queue routing program
(`smart-queue-routing-python/smart_queue.py`). Both are stated as pure
functions, and their properties are proved.

1. **Arrival reconstruction** (`create_customers_from_sensor`). Four door
   sensors report cumulative head counts at each timestamp. Each reading is
   compared with the previous one, starting from all zeros. A sensor whose count
   rose by `d` produces `d` new customers arriving at that reading's time. Sensors
   are handled in order 1 to 4, and ids run on from 1. A count that fell
   produces nobody, and the next reading is still measured from the fallen
   value.
2. **Routing simulation** (`simulate_multi_counter`). Customers are processed
   one at a time in arrival order, across four counters with service times
   3.5, 5.0, 4.0 and 3.0 and a capacity of 5.
   - Each customer is sent to the first counter with the smallest predicted wait,
     meaning queue length times service time.
   - If that counter already holds 5, the customer goes instead to the first
     counter with room that has the fewest queued, and a redirect is announced.
   - If no counter has room, the customer joins the first choice anyway, with an
     "all counters full" warning.
   - Service waits until the counter is free. The customer joins the queue and the
     counter stays busy until the service ends.
   - Each result records the queue length after joining and the predicted wait
     computed before any redirect.

Modules:

- `Arrivals` (`arrivals.dfy`) holds the sensor readings and customer
  reconstruction. `ArrivalFacts` (`arrival_facts.dfy`) holds its properties:
  - ordering;
  - resuming from the last reading;
  - the count of customers for monotone input;
  - what a dipping sensor does.
- `Routing` (`routing.dfy`) covers:
  - counters and the routing rule `Choose`;
  - serving one customer (`Serve`);
  - the run over all customers;
  - the messages;
  - `SimulateMultiCounter`.

  `RunWith` folds any routing rule over the customers, and `Run` is
  `RunWith` with `Choose`.
- `RoutingFacts` (`routing_facts.dfy`) holds facts about runs under any routing
  rule: splitting a run, queue contents, timing, one-at-a-time service and
  capacity. Where a fact depends on the rule, the requirement is stated as a
  predicate on rules, and `Choose` is shown to meet it.
- `SimulationFacts` (`simulation_facts.dfy`) states these facts for the
  simulation itself: fresh counters routed by `Choose`.
- `Scenarios` (`scenarios.dfy`) holds worked examples: two people at one sensor,
  two customers routed to counters 1 and 2, a redirect, and all counters full.

## Model

| member | source | states |
|---|---|---|
| Arrivals.ReadingGroups | smart-queue-routing-python/smart_queue.py:39-48 | one reading gives one group per sensor, in sensor order, of size equal to the positive part of that sensor's change; total size is the reading's new people |
| Arrivals.Groups | smart-queue-routing-python/smart_queue.py:38-50 | four groups per reading, each reading measured from the one before; total size is the new people over all readings; only reading timestamps occur |
| Arrivals.Numbered | smart-queue-routing-python/smart_queue.py:43-48 | as many customers as the groups hold, ids consecutive from `next`, each arriving at the time of some group |
| Arrivals.ReadingCustomers | smart-queue-routing-python/smart_queue.py:39-48 | the customers of one reading: as many as the positive increments add up to, ids consecutive, all arriving at the reading's time |
| Arrivals.CreateCustomersFromSensor | smart-queue-routing-python/smart_queue.py:31-53 | the number of customers is the total of positive increments from all-zero counts; ids are 1, 2, 3, … in order; every arrival is a reading timestamp; no readings give no customers (each customer's own reading is fixed by `ArrivalFacts.CreateSnoc`) |
| ArrivalFacts.GroupsAt | smart-queue-routing-python/smart_queue.py:38-50 | group `4j+i` is sensor `i` at reading `j`, sized by the positive change since reading `j-1` (the last reading, not the highest seen) |
| ArrivalFacts.NoIncreaseNoCustomers | smart-queue-routing-python/smart_queue.py:40-44 | a reading produces no customer if and only if no sensor count went up |
| ArrivalFacts.GroupsOrdered | smart-queue-routing-python/smart_queue.py:38-50 | time-ordered readings give time-ordered groups |
| ArrivalFacts.NumberedOrdered | smart-queue-routing-python/smart_queue.py:43-48 | numbering time-ordered groups gives customers in arrival order |
| ArrivalFacts.ArrivalsOrdered | smart-queue-routing-python/smart_queue.py:31-53 | time-ordered readings give customers in non-decreasing arrival order |
| ArrivalFacts.GroupsSplit | smart-queue-routing-python/smart_queue.py:38-50 | the groups of two batches of readings are the first batch's followed by the second's, measured from the first batch's last counts |
| ArrivalFacts.NumberedSplit | smart-queue-routing-python/smart_queue.py:45-48 | numbering two lists of groups together equals numbering the second on from where the first stopped |
| ArrivalFacts.ResumeFromLastReading | smart-queue-routing-python/smart_queue.py:34-50 | processing readings in two parts gives the same customers as all at once, the second part measured from the last reading of the first and numbered on |
| ArrivalFacts.CreateSnoc | smart-queue-routing-python/smart_queue.py:38-50 | one more reading appends exactly its own customers: measured from the reading before it, numbered on from the customers so far, all arriving at that reading's timestamp |
| ArrivalFacts.NewPeopleTriangle | smart-queue-routing-python/smart_queue.py:40-44 | going through an intermediate reading never produces fewer customers than the direct jump would |
| ArrivalFacts.GrowthIsNewPeople | smart-queue-routing-python/smart_queue.py:40-44 | when no count falls, a reading's new people equal the growth of the four counts |
| ArrivalFacts.AtLeastNetGrowth | smart-queue-routing-python/smart_queue.py:38-50 | for any counts, the customers produced are at least the positive growth from the start to the last reading |
| ArrivalFacts.MonotoneTotal | smart-queue-routing-python/smart_queue.py:38-50 | for counts that never fall, the customers produced equal the net growth from the start to the last reading |
| ArrivalFacts.MonotoneCustomersEqualFinalCounts | smart-queue-routing-python/smart_queue.py:31-53 | for counts that never fall, the number of customers is the sum of the last reading's four counts |
| ArrivalFacts.DipIsCountedAgain | smart-queue-routing-python/smart_queue.py:40-50 | a sensor going 5, 3, 5 yields 7 customers: a drop is not remembered, and the recovery counts again |
| Routing.MinIsLeast | smart-queue-routing-python/smart_queue.py:79 | `min` of the predicted waits is a member no greater than any |
| Routing.IndexOfIsFirst | smart-queue-routing-python/smart_queue.py:79 | `index` finds the first position holding the value |
| Routing.ArgMinIsFirstMin | smart-queue-routing-python/smart_queue.py:79 | `index(min(...))` is the first position of a smallest entry |
| Routing.Preferred | smart-queue-routing-python/smart_queue.py:76-79 | the first choice is one of the four counters; which one is `PreferredIsFirstShortestWait` and `PreferredIff` |
| Routing.PreferredIsFirstShortestWait | smart-queue-routing-python/smart_queue.py:76-79 | the first choice has the shortest predicted wait, and every counter before it has a strictly longer one |
| Routing.PreferredIff | smart-queue-routing-python/smart_queue.py:76-79 | the first choice is counter `p` if and only if `p` is the first with the shortest predicted wait |
| Routing.FirstShortestWaitUnique | smart-queue-routing-python/smart_queue.py:79 | only one counter is first with the shortest predicted wait |
| Routing.AvailableFrom | smart-queue-routing-python/smart_queue.py:83-86 | the counters with room from `i` on number at most the counters from `i` on; the exact contents and order are `AvailableFromExact` and `AvailableFromAscending` |
| Routing.AvailableFromExact | smart-queue-routing-python/smart_queue.py:83-86 | the list of counters with room holds exactly the counters with fewer than 5 queued |
| Routing.AvailableFromAscending | smart-queue-routing-python/smart_queue.py:83-86 | the counters with room are listed in ascending order |
| Routing.LoadsOfAt | smart-queue-routing-python/smart_queue.py:88-90 | the key of each available counter is its queue length |
| Routing.LeastLoaded | smart-queue-routing-python/smart_queue.py:87-90 | the redirect target is one of the counters with room; that it is the first least-loaded one is `LeastLoadedIsFirstWithRoom` |
| Routing.FirstMinLoadIsFirstWithRoom | smart-queue-routing-python/smart_queue.py:87-90 | `min` by queue length over the ascending list of counters with room picks the first least-loaded counter with room |
| Routing.LeastLoadedIsFirstWithRoom | smart-queue-routing-python/smart_queue.py:87-90 | the redirect target has room, no counter with room has fewer queued, and every earlier counter with room has more |
| Routing.FirstLeastLoadedWithRoomUnique | smart-queue-routing-python/smart_queue.py:87-90 | only one counter is the first least-loaded counter with room |
| Routing.SomeCounterWithRoom | smart-queue-routing-python/smart_queue.py:83-87 | unless every counter is full, some counter is available |
| Routing.Choose | smart-queue-routing-python/smart_queue.py:76-100 | a routing decision raises at most one advisory |
| Routing.ChooseWithRoom | smart-queue-routing-python/smart_queue.py:79-81 | when the first choice has room, the customer goes there with no advisory |
| Routing.ChooseRedirects | smart-queue-routing-python/smart_queue.py:81-96 | when the first choice is full and another counter has room, the customer goes to the first least-loaded counter with room, and one redirect naming that counter (numbered from 1) is raised |
| Routing.ChooseAllFull | smart-queue-routing-python/smart_queue.py:81-100 | when every counter is full, the customer stays with the first choice and one "all full" advisory is raised |
| Routing.ChooseRespectsCapacity | smart-queue-routing-python/smart_queue.py:81-100 | the chosen counter has room unless an "all full" advisory was raised |
| Routing.ChooseAdvisories | smart-queue-routing-python/smart_queue.py:81-100 | no advisory, a redirect or an "all full" warning, exactly according to whether the first choice and then every counter is full |
| Routing.Serve | smart-queue-routing-python/smart_queue.py:102-121 | a step's result keeps the customer's id and arrival, reports the chosen counter numbered from 1, and passes on the decision's advisories |
| Routing.ServeCounter | smart-queue-routing-python/smart_queue.py:109-110 | only the chosen counter changes: the customer joins the back of its queue, and it is free at the end of that service |
| Routing.ServeTiming | smart-queue-routing-python/smart_queue.py:103-105 | the wait is 0 or the counter's remaining busy time, whichever is larger; service starts once both customer and counter are ready and lasts the counter's service time |
| Routing.ServeIdleCounter | smart-queue-routing-python/smart_queue.py:103-105 | at a counter already free on arrival, the customer waits 0 and is served from arrival |
| Routing.ServeReport | smart-queue-routing-python/smart_queue.py:112-121 | the reported queue length is the pre-join length plus one, and the predicted wait is the one computed before the decision for the counter finally chosen |
| Routing.RunWith | smart-queue-routing-python/smart_queue.py:73-121 | one result per customer |
| Routing.RunKeepsCustomers | smart-queue-routing-python/smart_queue.py:73-121 | result `k` is about customer `k`: same id, same arrival |
| Routing.Suggestion | smart-queue-routing-python/smart_queue.py:91-99 | a suggestion line is a redirect notice or an "all full" warning, never a "has space" line, and names the customer of its advisory |
| Routing.Screen | smart-queue-routing-python/smart_queue.py:94-100 | the screen line of an advisory pairs with its suggestion: "counter n has space" for a redirect to n, and the same warning for "all full" |
| Routing.SuggestionIdentifies | smart-queue-routing-python/smart_queue.py:91-99 | two advisories give the same suggestion line if and only if they are the same advisory |
| Routing.SimulateMultiCounter | smart-queue-routing-python/smart_queue.py:55-124 | one result per customer in input order with the same id and arrival; as many screen messages as suggestions, the `k`-th of each shown for the same advisory; no customers give three empty lists |
| RoutingFacts.IdsAtIgnoresOthers | smart-queue-routing-python/smart_queue.py:110 | assignments to other counters do not change a counter's list of ids |
| RoutingFacts.ChooseKeepsCapacity | smart-queue-routing-python/smart_queue.py:81-100 | the routing rule never picks a full counter without an "all full" advisory |
| RoutingFacts.ChooseQuietBelowCapacity | smart-queue-routing-python/smart_queue.py:81 | with fewer than 5 customers queued in all, the routing rule raises no advisory |
| RoutingFacts.ChooseAnnounces | smart-queue-routing-python/smart_queue.py:81-100 | every advisory is about the customer routed, and a redirect names the counter chosen |
| RoutingFacts.RunAppend | smart-queue-routing-python/smart_queue.py:73-121 | running two batches one after the other, the second starting from the counters the first left, equals running them together |
| RoutingFacts.RunPrefix | smart-queue-routing-python/smart_queue.py:73-121 | running the first `n` customers yields the first `n` results and a prefix of the advisories |
| RoutingFacts.RunAt | smart-queue-routing-python/smart_queue.py:73-121 | customer `k` is served from the counters left by the customers before it, and the run reports that step's assignment |
| RoutingFacts.RunStep | smart-queue-routing-python/smart_queue.py:81-121 | customer `k`'s counter, queue length after joining and predicted wait come from the rule's decision on the counters left by earlier customers, and the advisories grow by that decision's |
| RoutingFacts.RunStepAdds | smart-queue-routing-python/smart_queue.py:91-100 | the advisories after customer `k` are those before it followed by the ones raised for it |
| RoutingFacts.RunQueues | smart-queue-routing-python/smart_queue.py:110 | every queue is its initial contents followed by the ids of the customers routed to it, in order |
| RoutingFacts.RunTotalQueued | smart-queue-routing-python/smart_queue.py:110 | each customer joins exactly one queue |
| RoutingFacts.RunFreeAtMonotone | smart-queue-routing-python/smart_queue.py:103-109 | no counter's free time ever moves backwards |
| RoutingFacts.PrefixFreeAtMonotone | smart-queue-routing-python/smart_queue.py:103-109 | a counter's free time after more customers is no earlier than after fewer |
| RoutingFacts.RunLoadsGrow | smart-queue-routing-python/smart_queue.py:110 | queues only grow: a counter holds no fewer customers after more of the run |
| RoutingFacts.JoinAtMostFinalLoad | smart-queue-routing-python/smart_queue.py:110-119 | the reported queue length is the counter's length right after the customer joined, hence at most its length at the end |
| RoutingFacts.RunTiming | smart-queue-routing-python/smart_queue.py:102-105 | every result has a counter 1 to 4, a non-negative wait, a start of arrival plus wait, and an end one service time later |
| RoutingFacts.QueueAfterJoinCounts | smart-queue-routing-python/smart_queue.py:110-119 | the reported queue length is the counter's initial length plus the customers routed there so far, this one included |
| RoutingFacts.RunEndFreesCounter | smart-queue-routing-python/smart_queue.py:105-109 | after customer `k`, its counter is free exactly when that customer's service ends |
| RoutingFacts.RunStartAfterFree | smart-queue-routing-python/smart_queue.py:103-104 | customer `k` starts no earlier than its counter was free |
| RoutingFacts.SerialService | smart-queue-routing-python/smart_queue.py:102-110 | a later customer at the same counter starts no earlier than an earlier one there ends |
| RoutingFacts.CapacityUnlessAllFull | smart-queue-routing-python/smart_queue.py:81-100 | under a rule that respects capacity, a reported queue length above 5 comes with an "all full" advisory for that customer |
| RoutingFacts.NoAdvisoriesBelowCapacity | smart-queue-routing-python/smart_queue.py:81 | under a rule quiet below capacity, at most 5 customers in all raise no advisory |
| RoutingFacts.AdvisoriesNameCustomers | smart-queue-routing-python/smart_queue.py:91-100 | there are at most as many advisories as customers, each is about one of them, and a redirect names that customer's counter |
| SimulationFacts.RunToShortestWait | smart-queue-routing-python/smart_queue.py:76-81 | when the counter with the shortest predicted wait has room, the customer goes to the first such counter, joins within capacity and records its predicted wait |
| SimulationFacts.RunRedirected | smart-queue-routing-python/smart_queue.py:81-90 | when the first choice is full and another has room, the customer goes to the first least-loaded counter with room, within capacity, recording that counter's pre-redirect predicted wait |
| SimulationFacts.RunAllFull | smart-queue-routing-python/smart_queue.py:97-100 | when every counter is full, the customer joins the first counter with the shortest predicted wait beyond capacity |
| SimulationFacts.RunStepAdvisories | smart-queue-routing-python/smart_queue.py:81-100 | customer `k` adds no advisory, a redirect naming its counter, or an "all full" warning, according to the counters it meets |
| SimulationFacts.QuietStep | smart-queue-routing-python/smart_queue.py:81 | a customer whose first choice has room adds no advisory |
| SimulationFacts.RedirectStep | smart-queue-routing-python/smart_queue.py:91-96 | a redirected customer adds one redirect naming the counter it was assigned |
| SimulationFacts.AllFullStep | smart-queue-routing-python/smart_queue.py:97-100 | a customer meeting only full counters adds one "all full" warning |
| SimulationFacts.QuietRun | smart-queue-routing-python/smart_queue.py:81-100 | if every customer finds room at the counter with the shortest predicted wait, the run raises no advisory |
| SimulationFacts.SimulateQueues | smart-queue-routing-python/smart_queue.py:63-110 | from fresh counters, each queue ends holding exactly the ids of the customers sent to it, in order, and the queues hold all customers |
| SimulationFacts.SimulateTiming | smart-queue-routing-python/smart_queue.py:102-105 | every result has a non-negative wait, starts at arrival plus wait, and ends one service time of its counter later |
| SimulationFacts.SimulateSerial | smart-queue-routing-python/smart_queue.py:102-110 | two customers at the same counter are served one after the other |
| SimulationFacts.SimulateQueuePlace | smart-queue-routing-python/smart_queue.py:119 | the reported queue length is the customer's place in its counter's queue |
| SimulationFacts.SimulateLastJoinIsQueueLength | smart-queue-routing-python/smart_queue.py:119 | the queue length reported for the last customer sent to a counter is that counter's final queue length |
| SimulationFacts.SimulateQuietWhileRoom | smart-queue-routing-python/smart_queue.py:81 | with at most 5 customers there are no suggestions and no screen messages |
| SimulationFacts.SimulateQuietWhileNoCounterFull | smart-queue-routing-python/smart_queue.py:81-119 | if no counter ever holds 5 customers, there are no suggestions and no screen messages, and every reported queue length is below 5 |
| SimulationFacts.SimulateCapacity | smart-queue-routing-python/smart_queue.py:81-100 | a customer reported beyond capacity was told that every counter is full |
| SimulationFacts.SimulateMessagesNameCustomers | smart-queue-routing-python/smart_queue.py:91-100 | there are no more suggestions than customers, and each is a redirect notice naming a customer and the counter it was assigned, or an "all full" warning for a customer |
| Scenarios.SensorScenario | smart-queue-routing-python/smart_queue.py:31-53 | one reading of 2 at sensor 1 gives customers 1 and 2, both arriving at its time |
| Scenarios.ChoosePrefersShortestWait | smart-queue-routing-python/smart_queue.py:79-81 | the routing rule sends a customer to the counter with the shortest predicted wait, without advisory, whenever it has room |
| Scenarios.ShortestWaitIdleStep | smart-queue-routing-python/smart_queue.py:79-121 | a customer whose first choice has room and is idle starts on arrival there, joins its queue and raises nothing, and no other counter changes |
| Scenarios.RunTwo | smart-queue-routing-python/smart_queue.py:73-121 | running two customers is serving the first and then the second from the counters it left |
| Scenarios.TwoCustomersScenario | smart-queue-routing-python/smart_queue.py:73-121 | two customers arriving together at idle empty counters go to counter 1 (ending 3.5 later) and counter 2 (ending 5.0 later), both with zero wait and queue length 1, with no advisory |
| Scenarios.RedirectScenario | smart-queue-routing-python/smart_queue.py:76-96 | with 5, 4, 4 and 5 queued, the first choice is counter 4, and the customer is redirected to counter 2 although counter 3 predicts a shorter wait |
| Scenarios.AllFullScenario | smart-queue-routing-python/smart_queue.py:76-100 | with 5 queued everywhere, the customer joins counter 4 as its sixth customer with an "all full" advisory |

## Left out

- Reading the sensor file (`read_sensor_live`, lines 4-29), writing the output
  files (`save_outputs`, lines 126-149) and the statistics and entry point
  (`main`, lines 151-182) are file I/O and reporting around the core. They are
  not modelled. The model's input is the parsed readings.
- Console output (`print`, lines 37-52, 61-72, 82, 107, 123) is left out.
- The exact message wording is not modelled. Messages are a datatype
  (`Message`) whose constructors carry the customer id and counter number that
  the text contains.
- Times are exact reals, not IEEE doubles, so rounding in `wait`, `start`,
  `end` and `predicted_wait` is not modelled.
- Counts are unbounded integers. The source's 64-bit integer arrays (line 39)
  could wrap on absurd counts, and that is not modelled.
- Each counter's `service` field (line 64) is not stored in `Counter`. It is
  looked up in `ServiceTimes` by counter position, to which the field is
  always equal.
- Re-running the simulation on the same customers gives the same results. This
  holds by construction, since `SimulateMultiCounter` is a function, and there
  is no lemma for it.
- Scenarios.TwoCustomersScenario: stated for any counters that are idle and
  empty at the arrival time, of which `Fresh()` at a non-negative time is one,
  rather than only for the fresh counters.
- Routing.Choose: its own contract only bounds the advisories. Its behaviour in
  each case is stated by `ChooseWithRoom`, `ChooseRedirects` and
  `ChooseAllFull`, to keep the function's unfolding small.
- Routing.Preferred: its own contract only bounds the index. That it is the
  first counter with the shortest predicted wait is stated by
  `PreferredIsFirstShortestWait` and `PreferredIff`.
- Routing.AvailableFrom: its own contract only bounds the length. The contents
  and order are stated by `AvailableFromExact` and `AvailableFromAscending`.
- Routing.LeastLoaded: its own contract only says the target is listed. Which
  counter it is, is stated by `LeastLoadedIsFirstWithRoom`.
- Routing.Suggestion: its own contract gives the message kind and customer.
  That the counter is kept as well is `SuggestionIdentifies`.
- Routing.RunWith: its own contract only gives the result count. The remaining
  properties of runs are the `RoutingFacts` lemmas.
- Malformed readings are not modelled: rows with fewer than five fields, or
  non-numeric ones, are discarded while the sensor file is read. A `Reading`
  always has four integer counts.

The reconstruction is defined for any integer counts, as the code is. A count
that falls produces no customers. The next reading is still measured from the
fallen count (line 50), so a dip and recovery counts the recovered people
again (`DipIsCountedAgain`). The total equals the last reading's counts only
for counts that never fall (`MonotoneCustomersEqualFinalCounts`); for other
input it is at least the net growth (`AtLeastNetGrowth`).
