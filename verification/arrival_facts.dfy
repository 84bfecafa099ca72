/**
 Properties of the arrival reconstruction: what each group holds, the order
 of arrivals, how processing carries over from one reading to the next, and
 how many customers appear.
 */
module ArrivalFacts {
  import opened Arrivals

  /** Timestamps do not decrease along the readings. */
  ghost predicate TimeOrdered(rs: seq<Reading>) {
    forall j, l :: 0 <= j < l < |rs| ==> rs[j].ts <= rs[l].ts
  }

  /** No sensor count ever falls, starting from `previous`. */
  ghost predicate CountsMonotone(rs: seq<Reading>, previous: Counts) {
    && (forall j, i :: 0 <= j < |rs| && 0 <= i < 4 ==> previous[i] <= rs[j].counts[i])
    && (forall j, l, i :: 0 <= j < l < |rs| && 0 <= i < 4 ==> rs[j].counts[i] <= rs[l].counts[i])
  }

  /** Group timestamps do not decrease along `gs`. */
  ghost predicate GroupsTimeOrdered(gs: seq<Group>) {
    forall a, b :: 0 <= a < b < |gs| ==> gs[a].ts <= gs[b].ts
  }

  /** Customers appear in order of arrival. */
  ghost predicate ArrivalOrdered(cs: seq<Customer>) {
    forall a, b :: 0 <= a < b < |cs| ==> cs[a].arrival <= cs[b].arrival
  }

  /** The counts that reading `j` is measured against: those of the reading just before it. */
  function Before(rs: seq<Reading>, previous: Counts, j: nat): Counts
    requires j < |rs|
  {
    if j == 0 then previous else rs[j - 1].counts
  }

  /** Sum of the four per-sensor differences `later - earlier`. */
  function NetGrowth(earlier: Counts, later: Counts): int {
    (later[0] - earlier[0]) + (later[1] - earlier[1]) + (later[2] - earlier[2]) + (later[3] - earlier[3])
  }

  /**
   Group `4 * j + i` holds the customers of sensor `i` at reading `j`: the
   positive part of that sensor's change since the reading just before, even
   when that earlier reading had fallen below an older one.
   */
  lemma {:induction false} GroupsAt(rs: seq<Reading>, previous: Counts, j: nat, i: nat)
    requires j < |rs| && i < 4
    ensures Groups(rs, previous)[4 * j + i]
            == Group(rs[j].ts, Pos(rs[j].counts[i] - Before(rs, previous, j)[i]))
    decreases j
  {
    var here := ReadingGroups(previous, rs[0]);
    var rest := Groups(rs[1..], rs[0].counts);
    assert Groups(rs, previous) == here + rest;
    if j > 0 {
      GroupsAt(rs[1..], rs[0].counts, j - 1, i);
      assert rs[1..][j - 1] == rs[j];
      assert Before(rs[1..], rs[0].counts, j - 1) == Before(rs, previous, j);
      assert (here + rest)[4 * j + i] == rest[4 * (j - 1) + i];
    }
  }

  /** A reading produces no customer exactly when no sensor count went up. */
  lemma NoIncreaseNoCustomers(previous: Counts, r: Reading, next: int)
    ensures ReadingCustomers(previous, r, next) == []
            <==> forall i :: 0 <= i < 4 ==> r.counts[i] <= previous[i]
  {
    var d := Increments(previous, r.counts);
    assert forall i :: 0 <= i < 4 ==> d[i] == r.counts[i] - previous[i];
  }

  /** Time-ordered readings give time-ordered groups. */
  lemma GroupsOrdered(rs: seq<Reading>, previous: Counts)
    requires TimeOrdered(rs)
    ensures GroupsTimeOrdered(Groups(rs, previous))
  {
    var gs := Groups(rs, previous);
    forall a, b | 0 <= a < b < |gs|
      ensures gs[a].ts <= gs[b].ts
    {
      GroupsAt(rs, previous, a / 4, a % 4);
      GroupsAt(rs, previous, b / 4, b % 4);
    }
  }

  /** In time-ordered groups, every stamp after the first group is no earlier than it. */
  lemma LaterStampsNotEarlier(gs: seq<Group>, x: real)
    requires |gs| > 0 && GroupsTimeOrdered(gs)
    requires x in Stamps(gs[1..])
    ensures gs[0].ts <= x
  {
    var g :| g in gs[1..] && g.ts == x;
    var l :| 0 <= l < |gs[1..]| && gs[1..][l] == g;
    assert gs[0].ts <= gs[l + 1].ts;
  }

  /** Customers numbered from time-ordered groups arrive in time order. */
  lemma {:induction false} NumberedOrdered(gs: seq<Group>, next: int)
    requires GroupsTimeOrdered(gs)
    ensures ArrivalOrdered(Numbered(gs, next))
    decreases |gs|
  {
    if |gs| > 0 {
      var cs := Numbered(gs, next);
      var first := Emit(gs[0].ts, gs[0].size, next);
      var rest := Numbered(gs[1..], next + gs[0].size);
      assert cs == first + rest;
      NumberedOrdered(gs[1..], next + gs[0].size);
      forall a, b | 0 <= a < b < |cs|
        ensures cs[a].arrival <= cs[b].arrival
      {
        if b < |first| {
          assert cs[a] == first[a] && cs[b] == first[b];
        } else if a < |first| {
          assert cs[a] == first[a] && cs[b] == rest[b - |first|];
          LaterStampsNotEarlier(gs, rest[b - |first|].arrival);
        } else {
          assert cs[a] == rest[a - |first|] && cs[b] == rest[b - |first|];
        }
      }
    }
  }

  /** Time-ordered readings give customers in arrival order. */
  lemma ArrivalsOrdered(rs: seq<Reading>)
    requires TimeOrdered(rs)
    ensures ArrivalOrdered(CreateCustomersFromSensor(rs))
  {
    GroupsOrdered(rs, Baseline);
    NumberedOrdered(Groups(rs, Baseline), FirstId);
  }

  lemma {:induction false} GroupsSplit(rs1: seq<Reading>, rs2: seq<Reading>, previous: Counts)
    ensures Groups(rs1 + rs2, previous) == Groups(rs1, previous) + Groups(rs2, Final(rs1, previous))
    decreases |rs1|
  {
    if |rs1| == 0 {
      assert rs1 + rs2 == rs2;
    } else {
      assert (rs1 + rs2)[0] == rs1[0];
      assert (rs1 + rs2)[1..] == rs1[1..] + rs2;
      GroupsSplit(rs1[1..], rs2, rs1[0].counts);
      assert Final(rs1[1..], rs1[0].counts) == Final(rs1, previous);
      var here := ReadingGroups(previous, rs1[0]);
      var mid := Groups(rs1[1..], rs1[0].counts);
      var tail := Groups(rs2, Final(rs1, previous));
      assert here + (mid + tail) == (here + mid) + tail;
    }
  }

  lemma {:induction false} NumberedSplit(g1: seq<Group>, g2: seq<Group>, next: int)
    ensures Numbered(g1 + g2, next) == Numbered(g1, next) + Numbered(g2, next + Size(g1))
    decreases |g1|
  {
    if |g1| == 0 {
      assert g1 + g2 == g2;
    } else {
      assert (g1 + g2)[0] == g1[0];
      assert (g1 + g2)[1..] == g1[1..] + g2;
      var n1 := next + g1[0].size;
      NumberedSplit(g1[1..], g2, n1);
      var here := Emit(g1[0].ts, g1[0].size, next);
      var mid := Numbered(g1[1..], n1);
      var tail := Numbered(g2, n1 + Size(g1[1..]));
      assert here + (mid + tail) == (here + mid) + tail;
    }
  }

  /**
   Readings processed in two parts give the same customers as all at once:
   the second part is measured from the last reading of the first part (not
   from the largest count seen so far) and numbered on from where the first
   part stopped.
   */
  lemma ResumeFromLastReading(rs1: seq<Reading>, rs2: seq<Reading>)
    ensures var first := CreateCustomersFromSensor(rs1);
            CreateCustomersFromSensor(rs1 + rs2)
            == first + Numbered(Groups(rs2, Final(rs1, Baseline)), FirstId + |first|)
  {
    GroupsSplit(rs1, rs2, Baseline);
    NumberedSplit(Groups(rs1, Baseline), Groups(rs2, Final(rs1, Baseline)), FirstId);
  }

  /**
   One more reading adds exactly that reading's customers at the end: measured
   from the reading before it, numbered on from the customers so far, and all
   arriving at its own timestamp.
   */
  lemma CreateSnoc(rs: seq<Reading>, r: Reading)
    ensures CreateCustomersFromSensor(rs + [r])
            == CreateCustomersFromSensor(rs) + ReadingCustomers(Final(rs, Baseline), r, FirstId + |CreateCustomersFromSensor(rs)|)
  {
    var previous := Final(rs, Baseline);
    ResumeFromLastReading(rs, [r]);
    assert Groups([r], previous) == ReadingGroups(previous, r) by {
      assert [r][1..] == [];
      assert Groups([r], previous) == ReadingGroups(previous, r) + Groups([], r.counts);
    }
  }

  lemma PosSplit(a: int, b: int)
    ensures Pos(a) + Pos(b) >= Pos(a + b)
    ensures a >= 0 && b >= 0 ==> Pos(a) + Pos(b) == Pos(a + b)
  {
  }

  /** Counting new people in two steps counts at least as many as in one. */
  lemma NewPeopleTriangle(a: Counts, b: Counts, c: Counts)
    ensures NewPeople(Increments(a, b)) + NewPeople(Increments(b, c)) >= NewPeople(Increments(a, c))
  {
    var ab, bc, ac := Increments(a, b), Increments(b, c), Increments(a, c);
    forall i | 0 <= i < 4
      ensures Pos(ab[i]) + Pos(bc[i]) >= Pos(ac[i])
    {
      PosSplit(ab[i], bc[i]);
    }
  }

  /** Between two readings whose counts did not fall, the new people are the net growth. */
  lemma GrowthIsNewPeople(earlier: Counts, later: Counts)
    requires forall i :: 0 <= i < 4 ==> earlier[i] <= later[i]
    ensures NewPeople(Increments(earlier, later)) == NetGrowth(earlier, later)
  {
  }

  /**
   Whatever the input, at least as many customers appear as the growth of
   each sensor from `previous` to the last reading (counting sensors that
   grew): a fall followed by a recovery is counted again.
   */
  lemma {:induction false} AtLeastNetGrowth(rs: seq<Reading>, previous: Counts)
    ensures TotalNewPeople(rs, previous) >= NewPeople(Increments(previous, Final(rs, previous)))
    decreases |rs|
  {
    if |rs| > 0 {
      var c0 := rs[0].counts;
      AtLeastNetGrowth(rs[1..], c0);
      assert Final(rs[1..], c0) == Final(rs, previous);
      NewPeopleTriangle(previous, c0, Final(rs, previous));
    }
  }

  /**
   With counts that never fall, the number of customers is exactly the net
   growth of the four sensors from `previous` to the last reading.
   */
  lemma {:induction false} MonotoneTotal(rs: seq<Reading>, previous: Counts)
    requires CountsMonotone(rs, previous)
    ensures TotalNewPeople(rs, previous) == NetGrowth(previous, Final(rs, previous))
    decreases |rs|
  {
    if |rs| > 0 {
      var c0 := rs[0].counts;
      assert CountsMonotone(rs[1..], c0) by {
        forall j, i | 0 <= j < |rs[1..]| && 0 <= i < 4
          ensures c0[i] <= rs[1..][j].counts[i]
        {
          assert rs[1..][j] == rs[j + 1];
        }
        forall j, l, i | 0 <= j < l < |rs[1..]| && 0 <= i < 4
          ensures rs[1..][j].counts[i] <= rs[1..][l].counts[i]
        {
          assert rs[1..][j] == rs[j + 1] && rs[1..][l] == rs[l + 1];
        }
      }
      MonotoneTotal(rs[1..], c0);
      assert Final(rs[1..], c0) == Final(rs, previous);
      GrowthIsNewPeople(previous, c0);
    }
  }

  /**
   For monotone input, the reconstruction produces exactly as many customers
   as the last reading's four counts add up to.
   */
  lemma MonotoneCustomersEqualFinalCounts(rs: seq<Reading>)
    requires |rs| > 0
    requires CountsMonotone(rs, Baseline)
    ensures var last := rs[|rs| - 1].counts;
            |CreateCustomersFromSensor(rs)| == last[0] + last[1] + last[2] + last[3]
  {
    MonotoneTotal(rs, Baseline);
  }

  /**
   A sensor that falls from 5 to 3 and comes back to 5 yields 7 customers,
   not 5: the recovery is measured from the fallen value.
   */
  lemma DipIsCountedAgain()
    ensures var rs := [Reading(1.0, [5, 0, 0, 0]), Reading(2.0, [3, 0, 0, 0]), Reading(3.0, [5, 0, 0, 0])];
            |CreateCustomersFromSensor(rs)| == 7
  {
    var rs := [Reading(1.0, [5, 0, 0, 0]), Reading(2.0, [3, 0, 0, 0]), Reading(3.0, [5, 0, 0, 0])];
    assert rs[1..][1..][1..] == [];
  }
}
