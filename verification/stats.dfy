/** The three figures at the top of the admin dashboard. "Today" is the
    caller's ISO date, passed in rather than read from a clock. */
module Stats {
  import opened Types
  import opened Optional
  import opened Store

  datatype DashboardStats = DashboardStats(coversToday: int, pending: nat, activeTables: nat)

  /** The reservations dated `today`, in order. */
  function TodaysReservations(rs: seq<Reservation>, today: string): (t: seq<Reservation>)
    ensures |t| <= |rs|
  {
    if |rs| == 0 then []
    else if rs[0].date == today then [rs[0]] + TodaysReservations(rs[1..], today)
    else TodaysReservations(rs[1..], today)
  }

  /** Today's list holds a booking iff the store does and it is dated today. */
  lemma {:induction false} TodaysMembership(rs: seq<Reservation>, today: string)
    ensures forall x :: x in TodaysReservations(rs, today) <==> x in rs && x.date == today
  {
    if |rs| > 0 {
      TodaysMembership(rs[1..], today);
      assert rs == [rs[0]] + rs[1..];
    }
  }

  /** Guests summed over the entries that are not cancelled: never
      negative when no guest count is, and zero when all are cancelled. */
  function Covers(rs: seq<Reservation>): (c: int)
    ensures (forall i :: 0 <= i < |rs| ==> rs[i].guests >= 0) ==> c >= 0
    ensures (forall i :: 0 <= i < |rs| ==> rs[i].status == Cancelled) ==> c == 0
  {
    if |rs| == 0 then 0
    else (if rs[0].status != Cancelled then rs[0].guests else 0) + Covers(rs[1..])
  }

  /** How many entries have status `st`. */
  function CountStatus(rs: seq<Reservation>, st: Status): (n: nat)
    ensures n <= |rs|
  {
    if |rs| == 0 then 0
    else (if rs[0].status == st then 1 else 0) + CountStatus(rs[1..], st)
  }

  /** The count is zero exactly when no entry has the status. */
  lemma {:induction false} CountZeroIff(rs: seq<Reservation>, st: Status)
    ensures CountStatus(rs, st) == 0 <==> forall i :: 0 <= i < |rs| ==> rs[i].status != st
  {
    if |rs| > 0 {
      CountZeroIff(rs[1..], st);
      assert forall i :: 1 <= i < |rs| ==> rs[i] == rs[1..][i - 1];
    }
  }

  /** Covers of today's non-cancelled bookings, pending bookings on any
      date, and today's seated bookings. Neither count exceeds the list,
      and active tables never exceed today's bookings. */
  function ComputeStats(rs: seq<Reservation>, today: string): (st: DashboardStats)
    ensures st.pending <= |rs|
    ensures st.activeTables <= |TodaysReservations(rs, today)| <= |rs|
  {
    var todays := TodaysReservations(rs, today);
    DashboardStats(Covers(todays), CountStatus(rs, Pending), CountStatus(todays, Seated))
  }

  /** Today's covers are never negative when no guest count is. */
  lemma {:induction false} CoversNonNegative(rs: seq<Reservation>, today: string)
    requires forall i :: 0 <= i < |rs| ==> rs[i].guests >= 0
    ensures ComputeStats(rs, today).coversToday >= 0
  {
    var todays := TodaysReservations(rs, today);
    TodaysMembership(rs, today);
    forall i | 0 <= i < |todays| ensures todays[i].guests >= 0 {
      assert todays[i] in rs;
    }
  }

  function Plus(a: DashboardStats, b: DashboardStats): DashboardStats {
    DashboardStats(a.coversToday + b.coversToday, a.pending + b.pending,
                   a.activeTables + b.activeTables)
  }

  /** Adding `y` in the middle and `x` at the end is adding `x` in the
      middle and `y` at the end. */
  lemma PlusExchange(p: DashboardStats, q: DashboardStats, x: DashboardStats, y: DashboardStats)
    ensures Plus(Plus(Plus(p, y), q), x) == Plus(Plus(Plus(p, x), q), y)
  {
  }

  /** Adding `c` between `p` and `q` is adding it in front. */
  lemma PlusRotate(p: DashboardStats, c: DashboardStats, q: DashboardStats)
    ensures Plus(Plus(p, Plus(c, DashboardStats(0, 0, 0))), q) == Plus(c, Plus(p, q))
  {
  }

  lemma PlusAssociative(x: DashboardStats, y: DashboardStats, z: DashboardStats)
    ensures Plus(x, Plus(y, z)) == Plus(Plus(x, y), z)
  {
  }

  /** What a single booking contributes to the dashboard. A booking is
      never both pending and an active table, and an active table always
      brings its guests to today's covers. */
  function Contribution(r: Reservation, today: string): (c: DashboardStats)
    ensures c.pending + c.activeTables <= 1
    ensures c.activeTables == 1 ==> c.coversToday == r.guests
  {
    DashboardStats(
      if r.date == today && r.status != Cancelled then r.guests else 0,
      if r.status == Pending then 1 else 0,
      if r.date == today && r.status == Seated then 1 else 0)
  }

  /** The contributions of the bookings summed one by one: a reference
      definition of the dashboard that never builds today's list. */
  function SumContributions(rs: seq<Reservation>, today: string): DashboardStats {
    if |rs| == 0 then DashboardStats(0, 0, 0)
    else Plus(Contribution(rs[0], today), SumContributions(rs[1..], today))
  }

  /** The statistics of one booking are its contribution. */
  lemma {:induction false} StatsOfOne(r: Reservation, today: string)
    ensures ComputeStats([r], today) == Contribution(r, today)
  {
    assert [r][1..] == [];
    assert TodaysReservations([], today) == [];
    assert Covers([r]) == (if r.status != Cancelled then r.guests else 0) + Covers([]);
    assert CountStatus([r], Pending) == (if r.status == Pending then 1 else 0) + CountStatus([], Pending);
    assert CountStatus([r], Seated) == (if r.status == Seated then 1 else 0) + CountStatus([], Seated);
    if r.date == today {
      assert TodaysReservations([r], today) == [r] + [];
    } else {
      assert TodaysReservations([r], today) == [];
    }
  }

  lemma {:induction false} TodaysAppend(a: seq<Reservation>, b: seq<Reservation>, today: string)
    ensures TodaysReservations(a + b, today) == TodaysReservations(a, today) + TodaysReservations(b, today)
  {
    if |a| == 0 {
      assert a + b == b;
    } else {
      assert (a + b)[1..] == a[1..] + b;
      TodaysAppend(a[1..], b, today);
    }
  }

  lemma {:induction false} CoversAppend(a: seq<Reservation>, b: seq<Reservation>)
    ensures Covers(a + b) == Covers(a) + Covers(b)
  {
    if |a| == 0 {
      assert a + b == b;
    } else {
      assert (a + b)[1..] == a[1..] + b;
      CoversAppend(a[1..], b);
    }
  }

  lemma {:induction false} CountAppend(a: seq<Reservation>, b: seq<Reservation>, st: Status)
    ensures CountStatus(a + b, st) == CountStatus(a, st) + CountStatus(b, st)
  {
    if |a| == 0 {
      assert a + b == b;
    } else {
      assert (a + b)[1..] == a[1..] + b;
      CountAppend(a[1..], b, st);
    }
  }

  /** The figures of a non-empty list are its head's contribution plus
      the figures of its tail. */
  lemma {:induction false} StatsCons(rs: seq<Reservation>, today: string)
    requires |rs| > 0
    ensures ComputeStats(rs, today) == Plus(Contribution(rs[0], today), ComputeStats(rs[1..], today))
  {
  }

  /** The dashboard equals the sum of the bookings' contributions. */
  lemma {:induction false} StatsAsSum(rs: seq<Reservation>, today: string)
    ensures ComputeStats(rs, today) == SumContributions(rs, today)
  {
    if |rs| == 0 {
      assert TodaysReservations(rs, today) == [];
    } else {
      StatsAsSum(rs[1..], today);
      StatsCons(rs, today);
    }
  }

  /** Summing contributions is additive over concatenation. */
  lemma {:induction false} SumAppend(a: seq<Reservation>, b: seq<Reservation>, today: string)
    ensures SumContributions(a + b, today) == Plus(SumContributions(a, today), SumContributions(b, today))
  {
    if |a| > 0 {
      assert (a + b)[1..] == a[1..] + b;
      assert (a + b)[0] == a[0];
      SumAppend(a[1..], b, today);
      PlusAssociative(Contribution(a[0], today), SumContributions(a[1..], today), SumContributions(b, today));
    } else {
      assert a + b == b;
    }
  }

  /** The statistics are additive over concatenation, so they do not
      depend on how the list is split. */
  lemma {:induction false} StatsAppend(a: seq<Reservation>, b: seq<Reservation>, today: string)
    ensures ComputeStats(a + b, today) == Plus(ComputeStats(a, today), ComputeStats(b, today))
  {
    StatsAsSum(a + b, today);
    StatsAsSum(a, today);
    StatsAsSum(b, today);
    SumAppend(a, b, today);
  }

  /** The figures of a list with `x` in the middle. */
  lemma {:induction false} StatsMiddle(pre: seq<Reservation>, x: Reservation, post: seq<Reservation>, today: string)
    ensures ComputeStats(pre + [x] + post, today)
         == Plus(Plus(ComputeStats(pre, today), Contribution(x, today)), ComputeStats(post, today))
  {
    StatsAppend(pre + [x], post, today);
    StatsAppend(pre, [x], today);
    StatsOfOne(x, today);
  }

  /** Taking out the entry at `k` takes out exactly its contribution
      from the sum. */
  lemma {:induction false} SumWithout(b: seq<Reservation>, k: int, today: string)
    requires 0 <= k < |b|
    ensures SumContributions(b, today) ==
      Plus(Contribution(b[k], today), SumContributions(b[..k] + b[k + 1..], today))
  {
    var pre, post := b[..k], b[k + 1..];
    assert b == pre + [b[k]] + post;
    SumAppend(pre + [b[k]], post, today);
    SumAppend(pre, [b[k]], today);
    SumAppend(pre, post, today);
    assert [b[k]][1..] == [];
    PlusRotate(SumContributions(pre, today), Contribution(b[k], today), SumContributions(post, today));
  }

  /** Taking out the entry at `k` takes out exactly its contribution. */
  lemma {:induction false} StatsWithout(b: seq<Reservation>, k: int, today: string)
    requires 0 <= k < |b|
    ensures ComputeStats(b, today) ==
      Plus(Contribution(b[k], today), ComputeStats(b[..k] + b[k + 1..], today))
  {
    StatsAsSum(b, today);
    StatsAsSum(b[..k] + b[k + 1..], today);
    SumWithout(b, k, today);
  }

  /** When `b` is a permutation of `a`, the head of `a` sits at some
      position `k` of `b`, and what remains of both is again a permutation. */
  lemma {:induction false} MatchHead<T>(a: seq<T>, b: seq<T>) returns (k: int)
    requires |a| > 0 && multiset(a) == multiset(b)
    ensures 0 <= k < |b| && b[k] == a[0]
    ensures multiset(a[1..]) == multiset(b[..k] + b[k + 1..])
  {
    assert a[0] in multiset(b) by {
      assert a == [a[0]] + a[1..];
    }
    k :| 0 <= k < |b| && b[k] == a[0];
    RemainingPermutation(a, b, k);
  }

  lemma {:induction false} RemainingPermutation<T>(a: seq<T>, b: seq<T>, k: int)
    requires |a| > 0 && multiset(a) == multiset(b)
    requires 0 <= k < |b| && b[k] == a[0]
    ensures multiset(a[1..]) == multiset(b[..k] + b[k + 1..])
  {
    var m := multiset{a[0]};
    assert multiset(a) == m + multiset(a[1..]) by {
      assert a == [a[0]] + a[1..];
    }
    assert multiset(b) == m + multiset(b[..k] + b[k + 1..]) by {
      assert b == b[..k] + [b[k]] + b[k + 1..];
    }
    var x, y := multiset(a[1..]), multiset(b[..k] + b[k + 1..]);
    assert x == (m + x) - m;
    assert y == (m + y) - m;
  }

  /** The sum of contributions does not depend on the order of the list. */
  lemma {:induction false} SumOrderIndependent(a: seq<Reservation>, b: seq<Reservation>, today: string)
    requires multiset(a) == multiset(b)
    ensures SumContributions(a, today) == SumContributions(b, today)
    decreases |a|
  {
    if |a| > 0 {
      var k := MatchHead(a, b);
      SumOrderIndependent(a[1..], b[..k] + b[k + 1..], today);
      SumWithout(b, k, today);
    } else {
      assert b == [];
    }
  }

  /** The statistics do not depend on the order of the list. */
  lemma {:induction false} StatsOrderIndependent(a: seq<Reservation>, b: seq<Reservation>, today: string)
    requires multiset(a) == multiset(b)
    ensures ComputeStats(a, today) == ComputeStats(b, today)
  {
    StatsAsSum(a, today);
    StatsAsSum(b, today);
    SumOrderIndependent(a, b, today);
  }

  // ---------------------------------------------------------------------
  // How the store operations move the figures
  // ---------------------------------------------------------------------

  /** Adding a booking adds its contribution: one more pending request,
      and its guests to today's covers when it is dated today. */
  lemma {:induction false} StatsAfterAdd(rs: seq<Reservation>, input: ReservationInput, newId: string, today: string)
    ensures var before := ComputeStats(rs, today);
            var after := ComputeStats(Add(rs, input, newId).0, today);
      && after.pending == before.pending + 1
      && after.activeTables == before.activeTables
      && after.coversToday == before.coversToday + (if input.date == today then input.guests else 0)
  {
    var r := NewRecord(input, newId);
    StatsAppend([r], rs, today);
    StatsOfOne(r, today);
  }

  /** Swapping one entry for another in the middle of a list swaps their
      contributions. */
  lemma {:induction false} StatsSwap(pre: seq<Reservation>, x: Reservation, y: Reservation, post: seq<Reservation>, today: string)
    ensures Plus(ComputeStats(pre + [y] + post, today), Contribution(x, today))
         == Plus(ComputeStats(pre + [x] + post, today), Contribution(y, today))
  {
    StatsMiddle(pre, x, post, today);
    StatsMiddle(pre, y, post, today);
    var p, q := ComputeStats(pre, today), ComputeStats(post, today);
    var cx, cy := Contribution(x, today), Contribution(y, today);
    PlusExchange(p, q, cx, cy);
  }

  /** Replacing the booking at `k` by `u` trades its contribution for
      that of `u`; the rest of the list is unaffected. */
  lemma {:induction false} StatsAfterUpdate(rs: seq<Reservation>, k: int, u: Reservation, today: string)
    requires UniqueIds(rs)
    requires 0 <= k < |rs| && u.id == rs[k].id
    ensures Plus(ComputeStats(Update(rs, u), today), Contribution(rs[k], today))
         == Plus(ComputeStats(rs, today), Contribution(u, today))
  {
    var pre, post := rs[..k], rs[k + 1..];
    UpdateSplice(rs, k, u);
    assert Update(rs, u) == pre + [u] + post;
    assert rs == pre + [rs[k]] + post;
    StatsSwap(pre, rs[k], u, post, today);
  }

  /** Seating a booking of today that was not yet seated (the floor view's
      quick action, or an edit that sets status `Seated`) adds one active
      table. */
  lemma {:induction false} SeatingAddsActiveTable(rs: seq<Reservation>, k: int, today: string)
    requires UniqueIds(rs)
    requires 0 <= k < |rs| && rs[k].date == today && rs[k].status != Seated
    ensures ComputeStats(Update(rs, rs[k].(status := Seated)), today).activeTables
         == ComputeStats(rs, today).activeTables + 1
  {
    StatsAfterUpdate(rs, k, rs[k].(status := Seated), today);
  }

  /** A cancellation message for a booking of today that was not yet
      cancelled removes its guests from today's covers. */
  lemma {:induction false} CancellingRemovesCovers(rs: seq<Reservation>, k: int, today: string)
    requires UniqueIds(rs)
    requires 0 <= k < |rs| && rs[k].date == today && rs[k].status != Cancelled
    ensures ComputeStats(HandleMessage(rs, Some(MessageData(CancelMessageType, rs[k].id))), today).coversToday
         == ComputeStats(rs, today).coversToday - rs[k].guests
  {
    CancelIsUpdate(rs, k);
    StatsAfterUpdate(rs, k, rs[k].(status := Cancelled), today);
  }
}
