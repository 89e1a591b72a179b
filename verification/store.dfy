/** The reservation store hook: initial load with seeding and fallback,
    and the four list rewrites (add, update, delete, cancel by message).
    Every operation is a pure function from the old list to the new one;
    persisting the list after each change is browser I/O and not modelled. */
module Store {
  import opened Optional
  import opened Types

  // ---------------------------------------------------------------------
  // Initial load
  // ---------------------------------------------------------------------

  /** What reading the storage key yields: the read itself throws, the key
      is absent (`null`), or it holds a text together with the outcome of
      parsing that text as JSON (`None` when the parser throws). */
  datatype Slot =
    | Unreadable
    | Missing
    | Stored(text: string, parsed: Option<seq<Reservation>>)

  /** Deposit rule used by the seed data: ten per guest. */
  function DepositFor(guests: int): int {
    guests * 10
  }

  /** The three example bookings written on first use. The first two are
      dated `today`, the third on a fixed past date. */
  function Seed(today: string): (s: seq<Reservation>)
    ensures |s| == 3
    ensures s[0].id == "1" && s[1].id == "2" && s[2].id == "3"
    ensures s[0].status == Confirmed && s[1].status == Pending && s[2].status == Seated
    ensures s[0].date == today && s[1].date == today && s[2].date == "2024-08-16"
    ensures forall i :: 0 <= i < |s| ==> s[i].depositAmount == DepositFor(s[i].guests)
    ensures UniqueIds(s)
  {
    [ Reservation("1", "Mario Rossi", today, "20:00", 2, "3331234567", None,
                  RomanticDinner, MainHall, Confirmed,
                  Some("Tavolo vicino alla finestra"), 20),
      Reservation("2", "Giulia Bianchi", today, "21:00", 4, "3477654321", None,
                  Birthday, PanoramicTerrace, Pending,
                  Some("Intolleranza al glutine per 1 ospite"), 40),
      Reservation("3", "Luca Verdi", "2024-08-16", "19:30", 6, "3289876543", None,
                  Business, ExclusivePrivateRoom, Seated,
                  None, 60) ]
  }

  /** JavaScript treats only a non-empty string as a present value. */
  predicate HasStoredText(slot: Slot) {
    slot.Stored? && slot.text != ""
  }

  /** The list the store starts from. `seedWritten` is whether writing
      the seed back to storage succeeded: a failing write throws inside the
      same guarded block, so the caller gets the empty list. */
  function InitialReservations(slot: Slot, seedWritten: bool, today: string): (rs: seq<Reservation>)
    // a stored, parseable list is used as it is
    ensures HasStoredText(slot) && slot.parsed.Some? ==> rs == slot.parsed.value
    // nothing stored: seed, provided the seed could be persisted
    ensures !slot.Unreadable? && !HasStoredText(slot) && seedWritten ==> rs == Seed(today)
    // any failure gives the empty list and never the seed
    ensures slot.Unreadable? ==> rs == []
    ensures HasStoredText(slot) && slot.parsed.None? ==> rs == []
    ensures !slot.Unreadable? && !HasStoredText(slot) && !seedWritten ==> rs == []
  {
    match slot
    case Unreadable => []
    case Missing => if seedWritten then Seed(today) else []
    case Stored(text, parsed) =>
      if text != "" then
        match parsed
        case Some(list) => list
        case None => []
      else if seedWritten then Seed(today) else []
  }

  /** Whatever the storage holds, the starting list is the stored one,
      the seed, or empty; a failed read or parse never yields the seed. */
  lemma InitialIsStoredSeedOrEmpty(slot: Slot, seedWritten: bool, today: string)
    ensures var rs := InitialReservations(slot, seedWritten, today);
      (HasStoredText(slot) && slot.parsed == Some(rs)) || rs == Seed(today) || rs == []
    ensures slot.Unreadable? || (HasStoredText(slot) && slot.parsed.None?) ==>
      |InitialReservations(slot, seedWritten, today)| == 0
  {
  }

  // ---------------------------------------------------------------------
  // Add
  // ---------------------------------------------------------------------

  /** `r` carries every field of `input` unchanged. */
  predicate Carries(r: Reservation, input: ReservationInput) {
    && r.name == input.name && r.date == input.date && r.time == input.time
    && r.guests == input.guests && r.phone == input.phone && r.email == input.email
    && r.occasion == input.occasion && r.area == input.area
    && r.notes == input.notes && r.depositAmount == input.depositAmount
  }

  /** The record add creates from `input` and the fresh id. */
  function NewRecord(input: ReservationInput, newId: string): (r: Reservation)
    ensures r.id == newId && r.status == Pending && Carries(r, input)
  {
    Reservation(newId, input.name, input.date, input.time, input.guests, input.phone,
                input.email, input.occasion, input.area, Pending, input.notes,
                input.depositAmount)
  }

  /** Prepends the new booking and returns the new list and the id
      assigned. The id is generated by the caller (from the clock and a
      random suffix in the application). */
  function Add(rs: seq<Reservation>, input: ReservationInput, newId: string): (result: (seq<Reservation>, string))
    ensures result.1 == newId
    ensures |result.0| == |rs| + 1
    ensures result.0[0].id == newId && result.0[0].status == Pending
    ensures Carries(result.0[0], input)
    ensures result.0[1..] == rs
  {
    ([NewRecord(input, newId)] + rs, newId)
  }

  // ---------------------------------------------------------------------
  // Update
  // ---------------------------------------------------------------------

  /** Replaces every entry whose id equals `u.id` by `u`. */
  function Update(rs: seq<Reservation>, u: Reservation): (r: seq<Reservation>)
    ensures |r| == |rs|
    ensures forall i :: 0 <= i < |rs| && rs[i].id == u.id ==> r[i] == u
    ensures forall i :: 0 <= i < |rs| && rs[i].id != u.id ==> r[i] == rs[i]
    ensures u.id !in Ids(rs) ==> r == rs
  {
    var r := seq(|rs|, i requires 0 <= i < |rs| => if rs[i].id == u.id then u else rs[i]);
    assert u.id !in Ids(rs) ==> forall i :: 0 <= i < |rs| ==> rs[i] in rs && r[i] == rs[i];
    r
  }

  /** Update keeps the set of ids: a replaced entry carries its own id. */
  lemma UpdateIds(rs: seq<Reservation>, u: Reservation)
    ensures Ids(Update(rs, u)) == Ids(rs)
  {
    SameIdsPointwise(Update(rs, u), rs);
  }

  /** On a list with unique ids, updating the entry at `k` replaces just
      that position. */
  lemma UpdateSplice(rs: seq<Reservation>, k: int, u: Reservation)
    requires UniqueIds(rs)
    requires 0 <= k < |rs| && u.id == rs[k].id
    ensures Update(rs, u) == rs[..k] + [u] + rs[k + 1..]
  {
    var r := Update(rs, u);
    var s := rs[..k] + [u] + rs[k + 1..];
    assert |r| == |s|;
    forall i | 0 <= i < |rs|
      ensures r[i] == s[i]
    {
      if i < k {
        assert rs[i].id != u.id && s[i] == rs[i];
      } else if i > k {
        assert rs[i].id != u.id && s[i] == rs[i];
      } else {
        assert s[k] == u;
      }
    }
  }

  /** Applying the same update twice is the same as applying it once. */
  lemma UpdateIdempotent(rs: seq<Reservation>, u: Reservation)
    ensures Update(Update(rs, u), u) == Update(rs, u)
  {
  }

  // ---------------------------------------------------------------------
  // Delete
  // ---------------------------------------------------------------------

  /** Keeps, in order, the entries whose id differs from `id`. */
  function Delete(rs: seq<Reservation>, id: string): (r: seq<Reservation>)
    ensures forall x :: x in r <==> x in rs && x.id != id
    ensures Ids(r) == Ids(rs) - {id}
    ensures |r| <= |rs|
    ensures id in Ids(rs) ==> |r| < |rs|
    ensures id !in Ids(rs) ==> r == rs
  {
    if |rs| == 0 then []
    else
      var t := Delete(rs[1..], id);
      assert rs == [rs[0]] + rs[1..];
      IdsCons(rs[0], rs[1..]);
      IdsCons(rs[0], t);
      if rs[0].id == id then t else [rs[0]] + t
  }

  /** Delete works piecewise, so the survivors keep their relative order. */
  lemma {:induction false} DeleteAppend(a: seq<Reservation>, b: seq<Reservation>, id: string)
    ensures Delete(a + b, id) == Delete(a, id) + Delete(b, id)
  {
    if |a| == 0 {
      assert a + b == b;
    } else {
      assert (a + b)[1..] == a[1..] + b;
      DeleteAppend(a[1..], b, id);
    }
  }

  /** A second delete of the same id changes nothing. */
  lemma DeleteIdempotent(rs: seq<Reservation>, id: string)
    ensures Delete(Delete(rs, id), id) == Delete(rs, id)
  {
  }

  /** Deleting the id that add just assigned restores the old list. */
  lemma DeleteUndoesAdd(rs: seq<Reservation>, input: ReservationInput, newId: string)
    requires newId !in Ids(rs)
    ensures Delete(Add(rs, input, newId).0, newId) == rs
  {
    var added := Add(rs, input, newId).0;
    assert added[1..] == rs;
  }

  // ---------------------------------------------------------------------
  // Cancellation message
  // ---------------------------------------------------------------------

  /** The message type that asks the store to cancel a booking. */
  const CancelMessageType: string := "CANCEL_RESERVATION"

  /** The payload of a message from the notification worker. */
  datatype MessageData = MessageData(kind: string, id: string)

  /** Forces status `Cancelled` on every entry with id `id`. */
  function CancelById(rs: seq<Reservation>, id: string): (r: seq<Reservation>)
    ensures |r| == |rs|
    ensures forall i :: 0 <= i < |rs| && rs[i].id == id ==> r[i] == rs[i].(status := Cancelled)
    ensures forall i :: 0 <= i < |rs| && rs[i].id != id ==> r[i] == rs[i]
    ensures Ids(r) == Ids(rs)
  {
    var r := seq(|rs|, i requires 0 <= i < |rs| => if rs[i].id == id then rs[i].(status := Cancelled) else rs[i]);
    SameIdsPointwise(r, rs);
    r
  }

  /** Reacts to a worker message; `None` stands for a message without
      data. Only a `CANCEL_RESERVATION` message changes the list. */
  function HandleMessage(rs: seq<Reservation>, data: Option<MessageData>): (r: seq<Reservation>)
    ensures |r| == |rs|
    ensures data.Some? && data.value.kind == CancelMessageType ==>
      forall i :: 0 <= i < |rs| ==>
        r[i] == (if rs[i].id == data.value.id then rs[i].(status := Cancelled) else rs[i])
    ensures !(data.Some? && data.value.kind == CancelMessageType) ==> r == rs
  {
    match data
    case Some(m) => if m.kind == CancelMessageType then CancelById(rs, m.id) else rs
    case None => rs
  }

  /** On a list with unique ids, cancelling by id is the same as updating
      that entry with a copy whose status is `Cancelled`. */
  lemma CancelIsUpdate(rs: seq<Reservation>, k: int)
    requires UniqueIds(rs)
    requires 0 <= k < |rs|
    ensures CancelById(rs, rs[k].id) == Update(rs, rs[k].(status := Cancelled))
  {
    var c := CancelById(rs, rs[k].id);
    var u := Update(rs, rs[k].(status := Cancelled));
    forall i | 0 <= i < |rs|
      ensures c[i] == u[i]
    {
      if rs[i].id == rs[k].id {
        assert i == k;
      }
    }
  }

  /** Cancelling twice is cancelling once. */
  lemma CancelIdempotent(rs: seq<Reservation>, id: string)
    ensures CancelById(CancelById(rs, id), id) == CancelById(rs, id)
  {
  }

  // ---------------------------------------------------------------------
  // Id uniqueness across the store operations
  // ---------------------------------------------------------------------

  /** One store operation as the application issues it. */
  datatype Op =
    | AddOp(input: ReservationInput, newId: string)
    | UpdateOp(updated: Reservation)
    | DeleteOp(id: string)
    | MessageOp(data: Option<MessageData>)

  /** The list after applying `op`. */
  function Apply(rs: seq<Reservation>, op: Op): (r: seq<Reservation>)
    ensures op.AddOp? ==> |r| == |rs| + 1
    ensures op.UpdateOp? || op.MessageOp? ==> |r| == |rs|
    ensures op.DeleteOp? ==> |r| <= |rs|
  {
    match op
    case AddOp(input, newId) => Add(rs, input, newId).0
    case UpdateOp(u) => Update(rs, u)
    case DeleteOp(id) => Delete(rs, id)
    case MessageOp(data) => HandleMessage(rs, data)
  }

  /** Adding under a fresh id keeps ids unique and adds exactly that id. */
  lemma AddKeepsIdsUnique(rs: seq<Reservation>, input: ReservationInput, newId: string)
    requires UniqueIds(rs)
    requires newId !in Ids(rs)
    ensures UniqueIds(Add(rs, input, newId).0)
    ensures Ids(Add(rs, input, newId).0) == Ids(rs) + {newId}
  {
    var r := Add(rs, input, newId).0;
    assert r == [r[0]] + rs;
    forall i, j | 0 <= i < j < |r|
      ensures r[i].id != r[j].id
    {
      if i > 0 {
        assert r[i] == rs[i - 1] && r[j] == rs[j - 1];
      } else {
        assert r[j] == rs[j - 1];
      }
    }
  }

  /** Update never duplicates an id. */
  lemma {:induction false} UpdateKeepsIdsUnique(rs: seq<Reservation>, u: Reservation)
    requires UniqueIds(rs)
    ensures UniqueIds(Update(rs, u))
  {
    var r := Update(rs, u);
    forall i, j | 0 <= i < j < |r|
      ensures r[i].id != r[j].id
    {
      assert rs[i].id != rs[j].id;
      if rs[i].id == u.id {
        assert r[j] == rs[j];
      } else if rs[j].id == u.id {
        assert r[i] == rs[i];
      }
    }
  }

  /** Delete keeps ids unique. */
  lemma {:induction false} DeleteKeepsIdsUnique(rs: seq<Reservation>, id: string)
    requires UniqueIds(rs)
    ensures UniqueIds(Delete(rs, id))
    decreases |rs|
  {
    if |rs| > 0 {
      assert rs == [rs[0]] + rs[1..];
      UniqueCons(rs[0], rs[1..]);
      DeleteKeepsIdsUnique(rs[1..], id);
      if rs[0].id != id {
        UniqueCons(rs[0], Delete(rs[1..], id));
      }
    }
  }

  /** Every store operation keeps ids unique, provided add is given an id
      that is not yet in use. */
  lemma ApplyKeepsIdsUnique(rs: seq<Reservation>, op: Op)
    requires UniqueIds(rs)
    requires op.AddOp? ==> op.newId !in Ids(rs)
    ensures UniqueIds(Apply(rs, op))
  {
    match op
    case AddOp(input, newId) => AddKeepsIdsUnique(rs, input, newId);
    case UpdateOp(u) => UpdateKeepsIdsUnique(rs, u);
    case DeleteOp(id) => DeleteKeepsIdsUnique(rs, id);
    case MessageOp(data) =>
      var r := Apply(rs, op);
      forall i, j | 0 <= i < j < |r|
        ensures r[i].id != r[j].id
      {
        assert r[i].id == rs[i].id && r[j].id == rs[j].id;
      }
  }
}
