/** The reservation record shared by the store and the admin dashboard,
    with its three closed enumerations. */
module Types {
  import opened Optional

  /** Lifecycle state of a booking. */
  datatype Status = Pending | Confirmed | Seated | Completed | Cancelled

  /** Why the guest is coming: 'Compleanno', 'Cena Romantica',
      'Anniversario', 'Lavoro', 'Altro'. */
  datatype Occasion = Birthday | RomanticDinner | Anniversary | Business | Other

  /** Where the guest sits: 'Sala Principale', 'Terrazza Panoramica',
      'Privé Esclusivo'. */
  datatype Area = MainHall | PanoramicTerrace | ExclusivePrivateRoom

  /** One booking. Dates are `YYYY-MM-DD` and times `HH:MM` strings.
      `guests` and `depositAmount` are floating-point numbers in the
      application; every value it writes is a whole number, so they are
      integers here. */
  datatype Reservation = Reservation(
    id: string,
    name: string,
    date: string,
    time: string,
    guests: int,
    phone: string,
    email: Option<string>,
    occasion: Occasion,
    area: Area,
    status: Status,
    notes: Option<string>,
    depositAmount: int
  )

  /** What a caller hands to the store's add operation: a reservation
      without `id` and `status`, which the store assigns. */
  datatype ReservationInput = ReservationInput(
    name: string,
    date: string,
    time: string,
    guests: int,
    phone: string,
    email: Option<string>,
    occasion: Occasion,
    area: Area,
    notes: Option<string>,
    depositAmount: int
  )

  /** The set of ids occurring in a list of reservations. */
  function Ids(rs: seq<Reservation>): set<string> {
    set r | r in rs :: r.id
  }

  /** No two positions of the list carry the same id. */
  predicate UniqueIds(rs: seq<Reservation>) {
    forall i, j :: 0 <= i < j < |rs| ==> rs[i].id != rs[j].id
  }

  /** Two lists that carry the same id at every position have the same
      id set. */
  lemma SameIdsPointwise(a: seq<Reservation>, b: seq<Reservation>)
    requires |a| == |b|
    requires forall i :: 0 <= i < |a| ==> a[i].id == b[i].id
    ensures Ids(a) == Ids(b)
  {
    forall x | x in Ids(a)
      ensures x in Ids(b)
    {
      var i :| 0 <= i < |a| && a[i].id == x;
      assert b[i] in b;
    }
    forall x | x in Ids(b)
      ensures x in Ids(a)
    {
      var i :| 0 <= i < |b| && b[i].id == x;
      assert a[i] in a;
    }
  }

  /** The ids of a list with a booking in front. */
  lemma IdsCons(h: Reservation, t: seq<Reservation>)
    ensures Ids([h] + t) == {h.id} + Ids(t)
  {
    assert forall r :: r in [h] + t <==> r == h || r in t;
  }

  /** A list with a booking in front has unique ids iff the tail has and
      does not use the front booking's id. */
  lemma UniqueCons(h: Reservation, t: seq<Reservation>)
    ensures UniqueIds([h] + t) <==> h.id !in Ids(t) && UniqueIds(t)
  {
    var r := [h] + t;
    if UniqueIds(r) {
      forall i, j | 0 <= i < j < |t| ensures t[i].id != t[j].id {
        assert r[i + 1] == t[i] && r[j + 1] == t[j];
      }
      forall x | x in t
        ensures x.id != h.id
      {
        var j :| 0 <= j < |t| && t[j] == x;
        assert r[0] == h && r[j + 1] == x;
      }
    }
    if h.id !in Ids(t) && UniqueIds(t) {
      forall i, j | 0 <= i < j < |r| ensures r[i].id != r[j].id {
        assert r[j] == t[j - 1];
        if i > 0 {
          assert r[i] == t[i - 1];
        } else {
          assert t[j - 1] in t;
        }
      }
    }
  }
}
