/** The admin dashboard's list pipeline: keep the reservations that pass
    the date, name and area filters, then sort them by date and time. */
module Filtering {
  import opened Types
  import opened Text

  /** The area selector: the `'Tutti'` button or one area. */
  datatype AreaFilter = AnyArea | OnlyArea(area: Area)

  /** The three filter controls. An empty `date` means no date filter. */
  datatype Filters = Filters(date: string, query: string, area: AreaFilter)

  predicate MatchesDate(r: Reservation, date: string) {
    date == "" || r.date == date
  }

  /** Case-insensitive substring match of the query on the guest name. */
  predicate MatchesName(r: Reservation, query: string) {
    Contains(Lower(r.name), Lower(query))
  }

  /** The area selector admits area `a`: it decides both which bookings
      pass the filter and which area cards the floor view draws. */
  predicate Shown(f: AreaFilter, a: Area) {
    f.AnyArea? || f.area == a
  }

  predicate MatchesArea(r: Reservation, area: AreaFilter) {
    Shown(area, r.area)
  }

  /** The lowered query occurs at some position of the lowered name. */
  ghost predicate QueryOccurs(name: string, query: string) {
    exists k :: OccursAt(Lower(name), Lower(query), k)
  }

  /** All three filter conditions hold: the lowered query occurs at some
      position of the lowered name. An empty query filters nothing, and
      with every control cleared each booking passes. */
  predicate Matches(r: Reservation, f: Filters): (m: bool)
    ensures m <==> MatchesDate(r, f.date) && MatchesArea(r, f.area) && QueryOccurs(r.name, f.query)
    ensures f.query == "" ==> (m <==> MatchesDate(r, f.date) && MatchesArea(r, f.area))
    ensures f == Filters("", "", AnyArea) ==> m
  {
    ContainsAt(Lower(r.name), Lower(f.query));
    EmptyIsEverywhere(Lower(r.name));
    assert Lower("") == "";
    assert f.query == "" ==> MatchesName(r, f.query);
    MatchesDate(r, f.date) && MatchesName(r, f.query) && MatchesArea(r, f.area)
  }

  /** The entries of `rs` that pass the filters, in their original order. */
  function Keep(rs: seq<Reservation>, f: Filters): (kept: seq<Reservation>)
    ensures forall x :: x in kept <==> x in rs && Matches(x, f)
    ensures |kept| <= |rs|
  {
    if |rs| == 0 then []
    else if Matches(rs[0], f) then [rs[0]] + Keep(rs[1..], f)
    else Keep(rs[1..], f)
  }

  /** Keeping works piecewise, so `Keep` never reorders. */
  lemma {:induction false} KeepAppend(a: seq<Reservation>, b: seq<Reservation>, f: Filters)
    ensures Keep(a + b, f) == Keep(a, f) + Keep(b, f)
  {
    if |a| == 0 {
      assert a + b == b;
    } else {
      assert (a + b)[1..] == a[1..] + b;
      KeepAppend(a[1..], b, f);
    }
  }

  /** The number of copies of `x` that `Keep` retains: all of them when
      `x` passes the filters, none otherwise. */
  lemma {:induction false} KeepMultiplicity(rs: seq<Reservation>, f: Filters, x: Reservation)
    ensures multiset(Keep(rs, f))[x] == if Matches(x, f) then multiset(rs)[x] else 0
  {
    if |rs| > 0 {
      var t := Keep(rs[1..], f);
      KeepMultiplicity(rs[1..], f, x);
      assert rs == [rs[0]] + rs[1..];
      assert multiset(rs) == multiset{rs[0]} + multiset(rs[1..]);
      if Matches(rs[0], f) {
        assert multiset(Keep(rs, f)) == multiset{rs[0]} + multiset(t);
      } else {
        assert Keep(rs, f) == t;
      }
    }
  }

  // ---------------------------------------------------------------------
  // Ordering by (date, time)
  // ---------------------------------------------------------------------

  /** The comparator of the list view: by date, then by time on equal
      dates. Bookings with the same date and time are in either order, and
      an ordered pair always has its dates ordered. */
  predicate KeyLe(a: Reservation, b: Reservation): (le: bool)
    ensures a.date == b.date && a.time == b.time ==> le
    ensures le ==> LexLe(a.date, b.date)
  {
    LexLeReflexive(a.date);
    LexLeReflexive(a.time);
    if a.date != b.date then LexLe(a.date, b.date) else LexLe(a.time, b.time)
  }

  /** Two bookings ordered both ways share date and time. */
  lemma KeyLeAntisymmetric(a: Reservation, b: Reservation)
    requires KeyLe(a, b) && KeyLe(b, a)
    ensures a.date == b.date && a.time == b.time
  {
    if a.date != b.date {
      LexLeAntisymmetric(a.date, b.date);
    } else {
      LexLeAntisymmetric(a.time, b.time);
    }
  }

  lemma KeyLeTotal(a: Reservation, b: Reservation)
    ensures KeyLe(a, b) || KeyLe(b, a)
  {
    LexLeTotal(a.date, b.date);
    LexLeTotal(a.time, b.time);
  }

  lemma KeyLeTransitive(a: Reservation, b: Reservation, c: Reservation)
    requires KeyLe(a, b) && KeyLe(b, c)
    ensures KeyLe(a, c)
  {
    if a.date == b.date && b.date == c.date {
      LexLeTransitive(a.time, b.time, c.time);
    } else if a.date == b.date || b.date == c.date {
    } else {
      LexLeTransitive(a.date, b.date, c.date);
      if a.date == c.date {
        LexLeAntisymmetric(b.date, c.date);
      }
    }
  }

  /** Every earlier entry sorts before or equal to every later one. */
  predicate SortedByKey(s: seq<Reservation>) {
    forall i, j :: 0 <= i < j < |s| ==> KeyLe(s[i], s[j])
  }

  /** A sorted list stays sorted when an entry no later than all of its
      entries is put in front. */
  lemma SortedCons(y: Reservation, t: seq<Reservation>)
    requires SortedByKey(t)
    requires forall z :: z in t ==> KeyLe(y, z)
    ensures SortedByKey([y] + t)
  {
    var r := [y] + t;
    forall i, j | 0 <= i < j < |r|
      ensures KeyLe(r[i], r[j])
    {
      if i == 0 {
        assert r[j] in t;
      } else {
        assert r[i] == t[i - 1] && r[j] == t[j - 1];
      }
    }
  }

  /** An entry no later than the head of a sorted list is no later than
      any of its entries. */
  lemma BeforeHead(x: Reservation, s: seq<Reservation>)
    requires SortedByKey(s) && |s| > 0 && KeyLe(x, s[0])
    ensures forall z :: z in s ==> KeyLe(x, z)
  {
    forall z | z in s ensures KeyLe(x, z) {
      var j :| 0 <= j < |s| && s[j] == z;
      if j > 0 { KeyLeTransitive(x, s[0], s[j]); }
    }
  }

  /** The head of a sorted list is no later than `x` nor than any other
      entry, so it is no later than any entry of a list holding exactly
      `x` and the rest. */
  lemma HeadBeforeRest(x: Reservation, s: seq<Reservation>, t: seq<Reservation>)
    requires SortedByKey(s) && |s| > 0 && KeyLe(s[0], x)
    requires multiset(t) == multiset(s[1..]) + multiset{x}
    ensures forall y :: y in t ==> KeyLe(s[0], y)
  {
    forall y | y in t ensures KeyLe(s[0], y) {
      assert y in multiset(t);
      if y != x {
        assert y in multiset(s[1..]);
        var j :| 0 <= j < |s[1..]| && s[1..][j] == y;
        assert s[j + 1] == y;
      }
    }
  }

  /** Puts `x` into a sorted list at the first place it fits. */
  function Insert(x: Reservation, s: seq<Reservation>): (r: seq<Reservation>)
    requires SortedByKey(s)
    ensures SortedByKey(r)
    ensures multiset(r) == multiset(s) + multiset{x}
  {
    if |s| == 0 then [x]
    else if KeyLe(x, s[0]) then
      BeforeHead(x, s);
      SortedCons(x, s);
      [x] + s
    else
      KeyLeTotal(x, s[0]);
      assert s == [s[0]] + s[1..];
      var tail := Insert(x, s[1..]);
      HeadBeforeRest(x, s, tail);
      SortedCons(s[0], tail);
      [s[0]] + tail
  }

  /** Sorts by (date, time): the result is ordered and holds exactly the
      same entries with the same multiplicities. */
  function SortByKey(s: seq<Reservation>): (r: seq<Reservation>)
    ensures SortedByKey(r)
    ensures multiset(r) == multiset(s)
  {
    if |s| == 0 then []
    else
      assert s == [s[0]] + s[1..];
      Insert(s[0], SortByKey(s[1..]))
  }

  /** What the list view shows: the filtered entries, sorted. */
  function FilteredReservations(rs: seq<Reservation>, f: Filters): (shown: seq<Reservation>)
    ensures SortedByKey(shown)
    ensures forall x :: x in shown <==> x in rs && Matches(x, f)
    ensures forall x :: multiset(shown)[x] == if Matches(x, f) then multiset(rs)[x] else 0
  {
    var kept := Keep(rs, f);
    var shown := SortByKey(kept);
    assert forall x :: multiset(shown)[x] == if Matches(x, f) then multiset(rs)[x] else 0 by {
      forall x ensures multiset(shown)[x] == if Matches(x, f) then multiset(rs)[x] else 0 {
        KeepMultiplicity(rs, f, x);
      }
    }
    assert forall x :: x in shown <==> x in multiset(kept);
    shown
  }

  /** Empty date, empty query and `'Tutti'` filter nothing. */
  lemma {:induction false} NoFiltersKeepsAll(rs: seq<Reservation>)
    ensures Keep(rs, Filters("", "", AnyArea)) == rs
  {
    if |rs| > 0 {
      assert Matches(rs[0], Filters("", "", AnyArea));
      NoFiltersKeepsAll(rs[1..]);
      assert rs == [rs[0]] + rs[1..];
    }
  }

  /** With no filter set, the view is a sorted permutation of the list. */
  lemma NoFiltersShowsAll(rs: seq<Reservation>)
    ensures multiset(FilteredReservations(rs, Filters("", "", AnyArea))) == multiset(rs)
  {
    NoFiltersKeepsAll(rs);
  }
}
