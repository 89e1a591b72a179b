/** The floor-plan view of the admin dashboard: one card per dining area,
    each listing the filtered bookings seated in that area. */
module Floor {
  import opened Types
  import opened Filtering

  /** The areas in the order their cards are laid out. */
  const AreaOrder: seq<Area> := [MainHall, PanoramicTerrace, ExclusivePrivateRoom]

  /** One area card and the bookings it lists. */
  datatype Card = Card(area: Area, entries: seq<Reservation>)

  /** The bookings of `rs` in area `a`, in their order in `rs`. */
  function OfArea(rs: seq<Reservation>, a: Area): (t: seq<Reservation>)
    ensures forall x :: x in t <==> x in rs && x.area == a
    ensures |t| <= |rs|
  {
    if |rs| == 0 then []
    else if rs[0].area == a then [rs[0]] + OfArea(rs[1..], a)
    else OfArea(rs[1..], a)
  }

  /** One card per area of `areas` that the selector shows, in order:
      never more cards than areas, each for a shown area of `areas` and
      listing that area's bookings. */
  function CardsFor(areas: seq<Area>, shown: seq<Reservation>, f: AreaFilter): (cards: seq<Card>)
    ensures |cards| <= |areas|
    ensures forall i :: 0 <= i < |cards| ==>
      Shown(f, cards[i].area) && cards[i].area in areas && cards[i].entries == OfArea(shown, cards[i].area)
  {
    if |areas| == 0 then []
    else if Shown(f, areas[0]) then [Card(areas[0], OfArea(shown, areas[0]))] + CardsFor(areas[1..], shown, f)
    else CardsFor(areas[1..], shown, f)
  }

  /** The three cards, or the one selected. */
  lemma CardsLayout(shown: seq<Reservation>, f: AreaFilter)
    ensures CardsFor(AreaOrder, shown, f) ==
      if f.AnyArea? then
        [Card(MainHall, OfArea(shown, MainHall)),
         Card(PanoramicTerrace, OfArea(shown, PanoramicTerrace)),
         Card(ExclusivePrivateRoom, OfArea(shown, ExclusivePrivateRoom))]
      else [Card(f.area, OfArea(shown, f.area))]
  {
    var rest1, rest2 := [PanoramicTerrace, ExclusivePrivateRoom], [ExclusivePrivateRoom];
    assert AreaOrder[1..] == rest1 && rest1[1..] == rest2 && rest2[1..] == [];
    var c0 := if Shown(f, MainHall) then [Card(MainHall, OfArea(shown, MainHall))] else [];
    var c1 := if Shown(f, PanoramicTerrace) then [Card(PanoramicTerrace, OfArea(shown, PanoramicTerrace))] else [];
    var c2 := if Shown(f, ExclusivePrivateRoom) then [Card(ExclusivePrivateRoom, OfArea(shown, ExclusivePrivateRoom))] else [];
    assert CardsFor(rest2, shown, f) == c2 + [];
    assert CardsFor(rest1, shown, f) == c1 + c2;
    assert CardsFor(AreaOrder, shown, f) == c0 + (c1 + c2);
  }

  /** The cards drawn for the list `shown` under the area selector `f`:
      a card appears exactly for the selected areas, and each lists
      exactly the bookings of `shown` in its area. */
  function FloorCards(shown: seq<Reservation>, f: AreaFilter): (cards: seq<Card>)
    ensures forall c :: c in cards ==> Shown(f, c.area)
    ensures forall c :: c in cards ==>
      forall x :: x in c.entries <==> x in shown && x.area == c.area
    ensures forall a :: Shown(f, a) ==> Card(a, OfArea(shown, a)) in cards
    ensures f.AnyArea? ==> |cards| == 3
    ensures f.OnlyArea? ==> |cards| == 1
  {
    CardsLayout(shown, f);
    CardsFor(AreaOrder, shown, f)
  }

  /** All bookings listed on the cards, card after card. */
  function CardEntries(cards: seq<Card>): seq<Reservation> {
    if |cards| == 0 then [] else cards[0].entries + CardEntries(cards[1..])
  }

  /** Splitting a list by area loses and duplicates nothing. */
  lemma {:induction false} AreaSplit(rs: seq<Reservation>)
    ensures multiset(rs) == multiset(OfArea(rs, MainHall)) + multiset(OfArea(rs, PanoramicTerrace))
                          + multiset(OfArea(rs, ExclusivePrivateRoom))
  {
    var m, p, e := multiset(OfArea(rs, MainHall)), multiset(OfArea(rs, PanoramicTerrace)),
                   multiset(OfArea(rs, ExclusivePrivateRoom));
    forall x
      ensures multiset(rs)[x] == (m + p + e)[x]
    {
      OfAreaMultiplicity(rs, MainHall, x);
      OfAreaMultiplicity(rs, PanoramicTerrace, x);
      OfAreaMultiplicity(rs, ExclusivePrivateRoom, x);
    }
  }

  /** The card for `a` holds every copy of a booking in `a`, and nothing
      else. */
  lemma {:induction false} OfAreaMultiplicity(rs: seq<Reservation>, a: Area, x: Reservation)
    ensures multiset(OfArea(rs, a))[x] == if x.area == a then multiset(rs)[x] else 0
  {
    if x.area != a {
      assert x !in OfArea(rs, a);
    } else if |rs| > 0 {
      var t := OfArea(rs[1..], a);
      OfAreaMultiplicity(rs[1..], a, x);
      assert multiset(rs) == multiset{rs[0]} + multiset(rs[1..]) by {
        assert rs == [rs[0]] + rs[1..];
      }
      if rs[0].area == a {
        assert multiset(OfArea(rs, a)) == multiset{rs[0]} + multiset(t) by {
          assert OfArea(rs, a) == [rs[0]] + t;
        }
      } else {
        assert x != rs[0];
        assert OfArea(rs, a) == t;
      }
    }
  }

  /** When every booking is in area `a`, the card for `a` lists them all. */
  lemma {:induction false} OfAreaAll(rs: seq<Reservation>, a: Area)
    requires forall x :: x in rs ==> x.area == a
    ensures OfArea(rs, a) == rs
  {
    if |rs| > 0 {
      assert rs[0] in rs;
      assert forall x :: x in rs[1..] ==> x in rs;
      OfAreaAll(rs[1..], a);
      assert rs == [rs[0]] + rs[1..];
    }
  }

  lemma ThreeCardEntries(m: seq<Reservation>, t: seq<Reservation>, p: seq<Reservation>)
    ensures CardEntries([Card(MainHall, m), Card(PanoramicTerrace, t), Card(ExclusivePrivateRoom, p)])
         == m + t + p
  {
    var c2 := [Card(ExclusivePrivateRoom, p)];
    var c1 := [Card(PanoramicTerrace, t)] + c2;
    var cards := [Card(MainHall, m)] + c1;
    assert cards[1..] == c1 && c1[1..] == c2 && c2[1..] == [];
    assert CardEntries(c2) == p + [];
    assert CardEntries(c1) == t + CardEntries(c2);
    assert CardEntries(cards) == m + CardEntries(c1);
    assert cards == [Card(MainHall, m), Card(PanoramicTerrace, t), Card(ExclusivePrivateRoom, p)];
  }

  /** For a list already restricted by the area selector, the cards hold
      every booking of the list exactly as often as the list does. */
  lemma CardsPartition(shown: seq<Reservation>, af: AreaFilter)
    requires forall x :: x in shown ==> MatchesArea(x, af)
    ensures multiset(CardEntries(FloorCards(shown, af))) == multiset(shown)
  {
    var cards := FloorCards(shown, af);
    CardsLayout(shown, af);
    if af.AnyArea? {
      var m, t, p := OfArea(shown, MainHall), OfArea(shown, PanoramicTerrace), OfArea(shown, ExclusivePrivateRoom);
      AreaSplit(shown);
      ThreeCardEntries(m, t, p);
    } else {
      OfAreaAll(shown, af.area);
      assert cards[1..] == [];
      assert CardEntries(cards) == shown + [];
    }
  }

  /** The cards partition the filtered list: every booking of the list
      view appears on exactly one card, once per occurrence. */
  lemma FloorCardsPartition(rs: seq<Reservation>, f: Filters)
    ensures var shown := FilteredReservations(rs, f);
      multiset(CardEntries(FloorCards(shown, f.area))) == multiset(shown)
  {
    CardsPartition(FilteredReservations(rs, f), f.area);
  }

  /** A card of a sorted list is itself sorted by (date, time). */
  lemma {:induction false} OfAreaSorted(s: seq<Reservation>, a: Area)
    requires SortedByKey(s)
    ensures SortedByKey(OfArea(s, a))
  {
    if |s| > 0 {
      assert SortedByKey(s[1..]);
      OfAreaSorted(s[1..], a);
      if s[0].area == a {
        var t := OfArea(s[1..], a);
        forall z | z in t ensures KeyLe(s[0], z) {
          var j :| 0 <= j < |s[1..]| && s[1..][j] == z;
          assert s[j + 1] == z;
        }
        SortedCons(s[0], t);
      }
    }
  }
}
