/**
 Arrival reconstruction: turning cumulative people-counter readings from four
 sensors into a flat, numbered sequence of customer arrivals.

 Each reading is compared with the one before it (the first with all-zero
 counts). For each sensor in ascending order, a positive increment `n` becomes
 `n` customers arriving at the reading's timestamp; a zero or negative
 increment becomes none. Customers are numbered consecutively from 1 in
 emission order.

 The reconstruction is written in two stages that together are the nested
 loop of `create_customers_from_sensor`: `Groups` lists, reading by reading and sensor by
 sensor, how many customers arrive and when; `Numbered` hands out the ids.
 */
module Arrivals {

  /** Cumulative counts of the four sensors, sensor 1 first. */
  type Counts = s: seq<int> | |s| == 4 witness [0, 0, 0, 0]

  /** One sensor reading: a timestamp and the four cumulative counts at it. */
  datatype Reading = Reading(ts: real, counts: Counts)

  /** A reconstructed customer: a sequential id and an arrival time. */
  datatype Customer = Customer(id: int, arrival: real)

  /** `size` customers arriving together at `ts` (one sensor of one reading). */
  datatype Group = Group(ts: real, size: nat)

  /** The counts assumed before the first reading. */
  const Baseline: Counts := [0, 0, 0, 0]

  /** The first customer id handed out. */
  const FirstId := 1

  function Pos(x: int): nat {
    if x > 0 then x else 0
  }

  /** Element-wise `current - previous`. */
  function Increments(previous: Counts, current: Counts): Counts {
    [current[0] - previous[0], current[1] - previous[1],
     current[2] - previous[2], current[3] - previous[3]]
  }

  /** How many people a set of increments stands for: only positive increments count. */
  function NewPeople(d: Counts): nat {
    Pos(d[0]) + Pos(d[1]) + Pos(d[2]) + Pos(d[3])
  }

  /** The readings' new people, each reading measured from the one just before it. */
  function TotalNewPeople(rs: seq<Reading>, previous: Counts): nat
    decreases |rs|
  {
    if |rs| == 0 then 0
    else NewPeople(Increments(previous, rs[0].counts)) + TotalNewPeople(rs[1..], rs[0].counts)
  }

  /** The timestamps of `rs`. */
  function Timestamps(rs: seq<Reading>): set<real> {
    set r | r in rs :: r.ts
  }

  /** The counts after the last of `rs`, or `previous` when there is none. */
  function Final(rs: seq<Reading>, previous: Counts): Counts {
    if |rs| == 0 then previous else rs[|rs| - 1].counts
  }

  /** Total number of customers in `gs`. */
  function Size(gs: seq<Group>): nat
    decreases |gs|
  {
    if |gs| == 0 then 0 else gs[0].size + Size(gs[1..])
  }

  /** The four groups of one reading, in ascending sensor order. */
  function ReadingGroups(previous: Counts, r: Reading): (gs: seq<Group>)
    ensures |gs| == 4
    ensures Size(gs) == NewPeople(Increments(previous, r.counts))
    ensures forall i :: 0 <= i < 4 ==> gs[i] == Group(r.ts, Pos(r.counts[i] - previous[i]))
  {
    var d := Increments(previous, r.counts);
    var gs := [Group(r.ts, Pos(d[0])), Group(r.ts, Pos(d[1])), Group(r.ts, Pos(d[2])), Group(r.ts, Pos(d[3]))];
    assert Size(gs[3..]) == Pos(d[3]);
    assert Size(gs[2..]) == Pos(d[2]) + Size(gs[3..]);
    assert Size(gs[1..]) == Pos(d[1]) + Size(gs[2..]);
    gs
  }

  /**
   The groups of all readings, the first measured against `previous` and every
   later one against the reading just before it (whatever the sign of the
   change).
   */
  function Groups(rs: seq<Reading>, previous: Counts): (gs: seq<Group>)
    ensures |gs| == 4 * |rs|
    ensures Size(gs) == TotalNewPeople(rs, previous)
    ensures Stamps(gs) <= Timestamps(rs)
    decreases |rs|
  {
    if |rs| == 0 then []
    else
      var here := ReadingGroups(previous, rs[0]);
      var rest := Groups(rs[1..], rs[0].counts);
      SizeAppend(here, rest);
      assert Timestamps(rs) == {rs[0].ts} + Timestamps(rs[1..]);
      assert Stamps(here) == {rs[0].ts};
      assert Stamps(here + rest) == Stamps(here) + Stamps(rest);
      here + rest
  }

  /** `n` customers arriving at `ts`, numbered from `next`. */
  function Emit(ts: real, n: nat, next: int): (cs: seq<Customer>)
    ensures |cs| == n
    ensures forall k :: 0 <= k < n ==> cs[k].id == next + k && cs[k].arrival == ts
  {
    seq(n, k => Customer(next + k, ts))
  }

  /** The arrival times of `gs`. */
  function Stamps(gs: seq<Group>): set<real> {
    set g | g in gs :: g.ts
  }

  /** The customers of `gs`, group by group, numbered from `next`. */
  function Numbered(gs: seq<Group>, next: int): (cs: seq<Customer>)
    ensures |cs| == Size(gs)
    ensures forall k :: 0 <= k < |cs| ==> cs[k].id == next + k
    ensures forall k :: 0 <= k < |cs| ==> cs[k].arrival in Stamps(gs)
    decreases |gs|
  {
    if |gs| == 0 then []
    else
      assert Stamps(gs) == {gs[0].ts} + Stamps(gs[1..]);
      Emit(gs[0].ts, gs[0].size, next) + Numbered(gs[1..], next + gs[0].size)
  }

  /**
   The customers produced by reading `r` when the counts before it were
   `previous`: as many as the positive increments add up to, numbered from
   `next`, all arriving at the reading's timestamp.
   */
  function ReadingCustomers(previous: Counts, r: Reading, next: int): (cs: seq<Customer>)
    ensures |cs| == NewPeople(Increments(previous, r.counts))
    ensures forall k :: 0 <= k < |cs| ==> cs[k] == Customer(next + k, r.ts)
  {
    var gs := ReadingGroups(previous, r);
    assert Stamps(gs) == {r.ts};
    Numbered(gs, next)
  }

  /**
   The arrival reconstruction: one customer per unit of positive increment,
   ids `1..N` in emission order.
   */
  function CreateCustomersFromSensor(rs: seq<Reading>): (cs: seq<Customer>)
    ensures |cs| == TotalNewPeople(rs, Baseline)
    ensures forall k :: 0 <= k < |cs| ==> cs[k].id == FirstId + k
    ensures forall k :: 0 <= k < |cs| ==> cs[k].arrival in Timestamps(rs)
    ensures |rs| == 0 ==> cs == []
  {
    Numbered(Groups(rs, Baseline), FirstId)
  }

  lemma {:induction false} SizeAppend(a: seq<Group>, b: seq<Group>)
    ensures Size(a + b) == Size(a) + Size(b)
    decreases |a|
  {
    if |a| == 0 {
      assert a + b == b;
    } else {
      assert (a + b)[1..] == a[1..] + b;
      SizeAppend(a[1..], b);
    }
  }
}
