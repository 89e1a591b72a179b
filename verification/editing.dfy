/** Inline editing on the admin dashboard: the id of the booking being
    edited, a scratch copy that the inputs change, and the actions that
    commit or abandon it, plus the floor view's quick "seat" action,
    delete, the view toggle and the filter controls. Store changes go
    through the store's update and delete. */
module Editing {
  import opened Optional
  import opened Types
  import opened Store
  import opened Filtering

  /** The two presentations of the filtered list. */
  datatype ViewMode = ListView | FloorView

  /** `editingId` and the scratch copy `scratch`; both are `null` when
      nothing is being edited. */
  datatype EditState = EditState(editingId: Option<string>, scratch: Option<Reservation>)

  const Idle: EditState := EditState(None, None)

  /** The edit state is coherent: whenever an id is being edited, the
      scratch copy exists and carries that id. */
  predicate Coherent(st: EditState) {
    st.editingId.Some? ==> st.scratch.Some? && st.scratch.value.id == st.editingId.value
  }

  /** A row or card is drawn with inputs instead of text. */
  predicate InEditMode(st: EditState, r: Reservation) {
    st.editingId == Some(r.id) && st.scratch.Some?
  }

  /** Since only one id can be stored, on a list with unique ids at most
      one booking is in edit mode. */
  lemma AtMostOneInEditMode(st: EditState, rs: seq<Reservation>, i: int, j: int)
    requires UniqueIds(rs)
    requires 0 <= i < |rs| && 0 <= j < |rs|
    requires InEditMode(st, rs[i]) && InEditMode(st, rs[j])
    ensures i == j
  {
  }

  /** The edit button: remember the id and take a copy of the booking. */
  function BeginEdit(st: EditState, r: Reservation): (st': EditState)
    ensures Coherent(st')
    ensures InEditMode(st', r)
    ensures st'.scratch == Some(r)
  {
    EditState(Some(r.id), Some(r))
  }

  /** The cancel button clears only the id; the scratch copy stays but no
      row is in edit mode any more, and the store is not touched. */
  function CancelEdit(st: EditState): (st': EditState)
    ensures st'.editingId.None?
    ensures st'.scratch == st.scratch
    ensures forall r :: !InEditMode(st', r)
  {
    st.(editingId := None)
  }

  /** The save button: commits the scratch copy through the store's
      update when there is one, then clears both fields. */
  function SaveEdit(st: EditState, rs: seq<Reservation>): (result: (EditState, seq<Reservation>))
    ensures result.0 == Idle
    ensures st.scratch.Some? ==> result.1 == Update(rs, st.scratch.value)
    ensures st.scratch.None? ==> result.1 == rs
  {
    match st.scratch
    case Some(c) => (Idle, Update(rs, c))
    case None => (Idle, rs)
  }

  // ---------------------------------------------------------------------
  // Inputs of the edit form
  // ---------------------------------------------------------------------

  /** One change made through an input of the edit form. `SetGuests`
      carries the result of parsing the number field, `None` when the
      text is not a number. */
  datatype FieldEdit =
    | SetName(name: string)
    | SetDate(date: string)
    | SetTime(time: string)
    | SetStatus(status: Status)
    | SetGuests(parsed: Option<int>)

  /** The list view offers name, date, time and status; the floor view's
      card adds the guest count. */
  predicate Offered(view: ViewMode, e: FieldEdit) {
    view == FloorView || !e.SetGuests?
  }

  /** The guest count a card input yields: a failed parse becomes 0. */
  function GuestsFromInput(parsed: Option<int>): int {
    parsed.GetOr(0)
  }

  /** `b` differs from `a` at most in the fields the view's form edits. */
  predicate KeepsFixedFields(a: Reservation, b: Reservation, view: ViewMode) {
    && a.id == b.id && a.phone == b.phone && a.email == b.email
    && a.occasion == b.occasion && a.area == b.area && a.notes == b.notes
    && a.depositAmount == b.depositAmount
    && (view == ListView ==> a.guests == b.guests)
  }

  /** Applies one input change to the scratch copy. Inputs exist only
      while a booking is in edit mode, so otherwise nothing changes. */
  function ApplyEdit(st: EditState, view: ViewMode, e: FieldEdit): (st': EditState)
    ensures st'.editingId == st.editingId
    ensures st'.scratch.Some? <==> st.scratch.Some?
    ensures st.scratch.Some? ==> KeepsFixedFields(st.scratch.value, st'.scratch.value, view)
    ensures !Offered(view, e) || st.editingId.None? ==> st' == st
    ensures st.editingId.Some? && st.scratch.Some? && Offered(view, e) ==>
      var c := st.scratch.value;
      st'.scratch.value == match e
        case SetName(n) => c.(name := n)
        case SetDate(d) => c.(date := d)
        case SetTime(t) => c.(time := t)
        case SetStatus(s) => c.(status := s)
        case SetGuests(p) => c.(guests := GuestsFromInput(p))
  {
    if st.editingId.None? || !Offered(view, e) then st
    else match st.scratch
      case None => st
      case Some(c) =>
        var c' := match e
          case SetName(n) => c.(name := n)
          case SetDate(d) => c.(date := d)
          case SetTime(t) => c.(time := t)
          case SetStatus(s) => c.(status := s)
          case SetGuests(p) => c.(guests := GuestsFromInput(p));
        st.(scratch := Some(c'))
  }

  /** A sequence of input changes, in order. The id being edited stays
      put and the scratch copy neither appears nor disappears. */
  function ApplyEdits(st: EditState, view: ViewMode, es: seq<FieldEdit>): (st': EditState)
    ensures st'.editingId == st.editingId
    ensures st'.scratch.Some? <==> st.scratch.Some?
    decreases |es|
  {
    if |es| == 0 then st else ApplyEdits(ApplyEdit(st, view, es[0]), view, es[1..])
  }

  /** However many inputs are used, the id being edited stays put and the
      scratch copy keeps every field the form does not offer. */
  lemma {:induction false} ApplyEditsFrame(st: EditState, view: ViewMode, es: seq<FieldEdit>)
    requires st.scratch.Some?
    ensures var st' := ApplyEdits(st, view, es);
      && st'.editingId == st.editingId
      && st'.scratch.Some?
      && KeepsFixedFields(st.scratch.value, st'.scratch.value, view)
    decreases |es|
  {
    if |es| > 0 {
      ApplyEditsFrame(ApplyEdit(st, view, es[0]), view, es[1..]);
    }
  }

  // ---------------------------------------------------------------------
  // Seat quick action
  // ---------------------------------------------------------------------

  /** The card offers "Accomoda" unless the booking is seated or done,
      that is exactly for pending, confirmed and cancelled bookings. */
  predicate SeatOffered(r: Reservation): (offered: bool)
    ensures offered <==> r.status in {Pending, Confirmed, Cancelled}
  {
    r.status != Seated && r.status != Completed
  }

  /** The booking submitted by "Accomoda": the same record, seated. */
  function Seat(r: Reservation): (s: Reservation)
    ensures s.status == Seated
    ensures KeepsFixedFields(r, s, FloorView)
    ensures s.name == r.name && s.date == r.date && s.time == r.time && s.guests == r.guests
  {
    r.(status := Seated)
  }

  // ---------------------------------------------------------------------
  // The dashboard as a whole
  // ---------------------------------------------------------------------

  /** An operator action on the dashboard, or a cancellation message from
      the background worker arriving in between. */
  datatype Action =
    | Edit(target: Reservation)
    | Change(edit: FieldEdit)
    | Save
    | Cancel
    | SeatGuests(target: Reservation)
    | Remove(target: Reservation)
    | SetView(mode: ViewMode)
    | SetDateFilter(date: string)
    | SetQuery(query: string)
    | SetAreaFilter(area: AreaFilter)
    | Incoming(data: Option<MessageData>)

  datatype Dashboard = Dashboard(store: seq<Reservation>, edit: EditState, view: ViewMode, filters: Filters)

  /** `r` is drawn: it is in the store and passes the filters. */
  predicate Drawn(d: Dashboard, r: Reservation) {
    r in d.store && Matches(r, d.filters)
  }

  /** The drawn bookings are exactly the entries of the filtered, sorted
      list. The floor view draws the same bookings, spread over its area
      cards (`FloorCardsPartition`). */
  lemma DrawnIsFiltered(d: Dashboard, r: Reservation)
    ensures Drawn(d, r) <==> r in FilteredReservations(d.store, d.filters)
  {
  }

  /** Some drawn booking is in edit mode, so the form with its inputs and
      its save and cancel buttons is on screen. */
  predicate FormDrawn(d: Dashboard) {
    exists r :: r in d.store && Drawn(d, r) && InEditMode(d.edit, r)
  }

  /** Whether the control that triggers `a` is on screen. Edit is drawn on
      every booking not in edit mode, in both views; delete only in the
      list view and "Accomoda" only on floor cards; the view toggle and
      the filter controls are always there. */
  predicate Enabled(d: Dashboard, a: Action) {
    match a
    case Edit(r) => Drawn(d, r) && !InEditMode(d.edit, r)
    case Change(e) => FormDrawn(d) && Offered(d.view, e)
    case Save => FormDrawn(d)
    case Cancel => FormDrawn(d)
    case SeatGuests(r) =>
      d.view == FloorView && Drawn(d, r) && !InEditMode(d.edit, r) && SeatOffered(r)
    case Remove(r) => d.view == ListView && Drawn(d, r) && !InEditMode(d.edit, r)
    case _ => true
  }

  /** Changes the store: save, seat, delete and an incoming message. */
  predicate TouchesStore(a: Action) {
    a.Save? || a.SeatGuests? || a.Remove? || a.Incoming?
  }

  /** Changes the edit state: the edit button, the inputs, save, cancel. */
  predicate TouchesEdit(a: Action) {
    a.Edit? || a.Change? || a.Save? || a.Cancel?
  }

  predicate TouchesFilters(a: Action) {
    a.SetDateFilter? || a.SetQuery? || a.SetAreaFilter?
  }

  /** The dashboard after one action. A control that is not drawn cannot
      be used, so its action changes nothing; every action leaves alone
      the parts of the dashboard it is not about. */
  function Step(d: Dashboard, a: Action): (d': Dashboard)
    ensures !Enabled(d, a) ==> d' == d
    ensures !a.SetView? ==> d'.view == d.view
    ensures !TouchesFilters(a) ==> d'.filters == d.filters
    ensures !TouchesStore(a) ==> d'.store == d.store
    ensures !TouchesEdit(a) ==> d'.edit == d.edit
    ensures Enabled(d, a) ==> match a
      case Edit(r) => d'.edit == BeginEdit(d.edit, r)
      case Change(e) => d'.edit == ApplyEdit(d.edit, d.view, e)
      case Save =>
        && d'.edit == Idle
        && d'.store == (if d.edit.scratch.Some? then Update(d.store, d.edit.scratch.value) else d.store)
      case Cancel => d'.edit.editingId.None? && d'.edit.scratch == d.edit.scratch
      case SeatGuests(r) => d'.store == Update(d.store, Seat(r))
      case Remove(r) => d'.store == Delete(d.store, r.id)
      case SetView(v) => d'.view == v
      case SetDateFilter(x) => d'.filters == d.filters.(date := x)
      case SetQuery(q) => d'.filters == d.filters.(query := q)
      case SetAreaFilter(af) => d'.filters == d.filters.(area := af)
      case Incoming(m) => d'.store == HandleMessage(d.store, m)
  {
    if !Enabled(d, a) then d
    else match a
      case Edit(r) => d.(edit := BeginEdit(d.edit, r))
      case Change(e) => d.(edit := ApplyEdit(d.edit, d.view, e))
      case Save =>
        var (st, rs) := SaveEdit(d.edit, d.store);
        d.(edit := st, store := rs)
      case Cancel => d.(edit := CancelEdit(d.edit))
      case SeatGuests(r) => d.(store := Update(d.store, Seat(r)))
      case Remove(r) => d.(store := Delete(d.store, r.id))
      case SetView(v) => d.(view := v)
      case SetDateFilter(date) => d.(filters := d.filters.(date := date))
      case SetQuery(q) => d.(filters := d.filters.(query := q))
      case SetAreaFilter(af) => d.(filters := d.filters.(area := af))
      case Incoming(m) => d.(store := Apply(d.store, MessageOp(m)))
  }

  /** The dashboard after a sequence of actions. */
  function Run(d: Dashboard, acts: seq<Action>): Dashboard
    decreases |acts|
  {
    if |acts| == 0 then d else Run(Step(d, acts[0]), acts[1..])
  }

  /** Every action keeps the edit state coherent and the store's ids
      unique. */
  lemma StepKeepsInvariants(d: Dashboard, a: Action)
    requires Coherent(d.edit) && UniqueIds(d.store)
    ensures Coherent(Step(d, a).edit) && UniqueIds(Step(d, a).store)
  {
    if Enabled(d, a) {
      match a
      case Save =>
        if d.edit.scratch.Some? {
          UpdateKeepsIdsUnique(d.store, d.edit.scratch.value);
        }
      case SeatGuests(r) => UpdateKeepsIdsUnique(d.store, Seat(r));
      case Remove(r) => DeleteKeepsIdsUnique(d.store, r.id);
      case Incoming(m) => ApplyKeepsIdsUnique(d.store, MessageOp(m));
      case _ =>
    }
  }

  /** ... and so does any sequence of actions. */
  lemma {:induction false} RunKeepsInvariants(d: Dashboard, acts: seq<Action>)
    requires Coherent(d.edit) && UniqueIds(d.store)
    ensures Coherent(Run(d, acts).edit) && UniqueIds(Run(d, acts).store)
    decreases |acts|
  {
    if |acts| > 0 {
      StepKeepsInvariants(d, acts[0]);
      RunKeepsInvariants(Step(d, acts[0]), acts[1..]);
    }
  }

  // ---------------------------------------------------------------------
  // Cancel
  // ---------------------------------------------------------------------

  /** The actions without the inputs, save and cancel. */
  function WithoutFormActions(acts: seq<Action>): (r: seq<Action>)
    ensures forall i :: 0 <= i < |r| ==> !(r[i].Change? || r[i].Save? || r[i].Cancel?)
    ensures |r| <= |acts|
  {
    if |acts| == 0 then []
    else if acts[0].Change? || acts[0].Save? || acts[0].Cancel? then WithoutFormActions(acts[1..])
    else [acts[0]] + WithoutFormActions(acts[1..])
  }

  /** With no id being edited the form is not drawn, and until an edit
      button is pressed it stays that way: the inputs, save and cancel do
      nothing, so a scratch copy left behind is never committed. */
  lemma {:induction false} IdleFormIsInert(d: Dashboard, acts: seq<Action>)
    requires d.edit.editingId.None?
    requires forall i :: 0 <= i < |acts| ==> !acts[i].Edit?
    ensures Run(d, acts).edit == d.edit
    ensures Run(d, acts) == Run(d, WithoutFormActions(acts))
    decreases |acts|
  {
    if |acts| > 0 {
      var a := acts[0];
      assert !FormDrawn(d);
      IdleFormIsInert(Step(d, a), acts[1..]);
      if a.Change? || a.Save? || a.Cancel? {
        assert Step(d, a) == d;
      } else {
        assert WithoutFormActions(acts) == [a] + WithoutFormActions(acts[1..]);
        assert ([a] + WithoutFormActions(acts[1..]))[1..] == WithoutFormActions(acts[1..]);
      }
    }
  }

  /** Cancel closes the form and drops nothing into the store; a save
      pressed right after it does nothing. */
  lemma CancelThenSave(d: Dashboard)
    ensures Step(d, Cancel).store == d.store
    ensures Step(Step(d, Cancel), Save) == Step(d, Cancel)
  {
    if FormDrawn(d) {
      assert !FormDrawn(Step(d, Cancel));
    }
  }

  /** After cancel, whatever follows short of a new edit never commits the
      abandoned scratch copy: the run is the same as one without any
      input, save or cancel, and the edit state stays as cancel left it. */
  lemma CancelledEditIsNeverSaved(d: Dashboard, acts: seq<Action>)
    requires FormDrawn(d)
    requires forall i :: 0 <= i < |acts| ==> !acts[i].Edit?
    ensures Run(Step(d, Cancel), acts).edit == Step(d, Cancel).edit
    ensures Run(Step(d, Cancel), acts) == Run(Step(d, Cancel), WithoutFormActions(acts))
  {
    IdleFormIsInert(Step(d, Cancel), acts);
  }

  // ---------------------------------------------------------------------
  // Edit sessions
  // ---------------------------------------------------------------------

  /** A full edit session on the booking at `k`: edit, any input changes,
      save. The store becomes the old list with position `k` replaced by
      the edited copy, which differs from the booking only in the fields
      the view's form offers. */
  lemma EditSession(rs: seq<Reservation>, k: int, view: ViewMode, es: seq<FieldEdit>)
    requires UniqueIds(rs)
    requires 0 <= k < |rs|
    ensures var st := ApplyEdits(BeginEdit(Idle, rs[k]), view, es);
            var (st', rs') := SaveEdit(st, rs);
      && st' == Idle
      && rs' == rs[..k] + [st.scratch.value] + rs[k + 1..]
      && |rs'| == |rs|
      && KeepsFixedFields(rs[k], rs'[k], view)
      && (forall i :: 0 <= i < |rs| && i != k ==> rs'[i] == rs[i])
  {
    var st0 := BeginEdit(Idle, rs[k]);
    ApplyEditsFrame(st0, view, es);
    var st := ApplyEdits(st0, view, es);
    UpdateSplice(rs, k, st.scratch.value);
  }

  lemma RunThree(d: Dashboard, a: Action, b: Action, c: Action)
    ensures Run(d, [a, b, c]) == Step(Step(Step(d, a), b), c)
  {
    var d1, d2 := Step(d, a), Step(Step(d, a), b);
    assert [a, b, c][1..] == [b, c] && [b, c][1..] == [c] && [c][1..] == [];
    assert Run(d, [a, b, c]) == Run(d1, [b, c]);
    assert Run(d1, [b, c]) == Run(d2, [c]);
    assert Run(d2, [c]) == Run(Step(d2, c), []);
  }

  /** A drawn booking in edit mode puts the form on screen. */
  lemma FormDrawnBy(d: Dashboard, r: Reservation)
    requires Drawn(d, r) && InEditMode(d.edit, r)
    ensures FormDrawn(d)
  {
  }

  /** On the dashboard: pressing edit on a drawn booking, choosing a new
      status and saving stores the booking with that status and nothing
      else changed, and closes the form. */
  lemma EditStatusAndSave(rs: seq<Reservation>, k: int, view: ViewMode, f: Filters, s: Status)
    requires UniqueIds(rs)
    requires 0 <= k < |rs| && Matches(rs[k], f)
    ensures var d' := Run(Dashboard(rs, Idle, view, f), [Edit(rs[k]), Change(SetStatus(s)), Save]);
      && d'.store == rs[..k] + [rs[k].(status := s)] + rs[k + 1..]
      && d'.edit == Idle
  {
    var r := rs[k];
    var d0 := Dashboard(rs, Idle, view, f);
    var d1 := d0.(edit := BeginEdit(Idle, r));
    var d2 := d0.(edit := EditState(Some(r.id), Some(r.(status := s))));
    assert Drawn(d0, r);
    assert Step(d0, Edit(r)) == d1;
    assert Enabled(d1, Change(SetStatus(s))) by {
      FormDrawnBy(d1, r);
    }
    assert ApplyEdit(d1.edit, view, SetStatus(s)) == d2.edit;
    assert Step(d1, Change(SetStatus(s))) == d2;
    assert Enabled(d2, Save) by {
      FormDrawnBy(d2, r);
    }
    assert Step(d2, Save) == d0.(edit := Idle, store := Update(rs, r.(status := s)));
    RunThree(d0, Edit(r), Change(SetStatus(s)), Save);
    UpdateSplice(rs, k, r.(status := s));
  }

  /** One action of a session that neither starts an edit nor saves keeps
      the scratch copy and its fixed fields; the guest count moves only
      through the guests input, and only a toggle leaves the list view. */
  lemma StepSessionFrame(d: Dashboard, a: Action)
    requires d.edit.scratch.Some? && !a.Edit? && !a.Save?
    ensures Step(d, a).edit.scratch.Some?
    ensures KeepsFixedFields(d.edit.scratch.value, Step(d, a).edit.scratch.value, d.view)
    ensures !(a.Change? && a.edit.SetGuests?) ==>
      Step(d, a).edit.scratch.value.guests == d.edit.scratch.value.guests
    ensures a != SetView(FloorView) && d.view == ListView ==> Step(d, a).view == ListView
  {
    if Enabled(d, a) && a.Change? {
      assert Step(d, a).edit == ApplyEdit(d.edit, d.view, a.edit);
    }
  }

  /** However the session goes, as long as no new edit is started and
      nothing is saved, the scratch copy keeps every field neither form
      offers; and its guest count changes only through the card's guests
      input, which exists only in the floor view. */
  lemma {:induction false} SessionFrame(d: Dashboard, acts: seq<Action>)
    requires d.edit.scratch.Some?
    requires forall i :: 0 <= i < |acts| ==> !acts[i].Edit? && !acts[i].Save?
    ensures Run(d, acts).edit.scratch.Some?
    ensures KeepsFixedFields(d.edit.scratch.value, Run(d, acts).edit.scratch.value, FloorView)
    ensures (forall i :: 0 <= i < |acts| ==> acts[i] != SetView(FloorView)) && d.view == ListView ==>
      Run(d, acts).edit.scratch.value.guests == d.edit.scratch.value.guests
    ensures (forall i :: 0 <= i < |acts| ==> !(acts[i].Change? && acts[i].edit.SetGuests?)) ==>
      Run(d, acts).edit.scratch.value.guests == d.edit.scratch.value.guests
    decreases |acts|
  {
    if |acts| > 0 {
      var d1 := Step(d, acts[0]);
      StepSessionFrame(d, acts[0]);
      SessionFrame(d1, acts[1..]);
      assert Run(d, acts) == Run(d1, acts[1..]);
      if (forall i :: 0 <= i < |acts| ==> acts[i] != SetView(FloorView)) && d.view == ListView {
        assert forall i :: 0 <= i < |acts[1..]| ==> acts[1..][i] == acts[i + 1];
      }
      if forall i :: 0 <= i < |acts| ==> !(acts[i].Change? && acts[i].edit.SetGuests?) {
        assert forall i :: 0 <= i < |acts[1..]| ==> acts[1..][i] == acts[i + 1];
      }
    }
  }

  /** The quick action on a drawn card at `k` seats the booking and
      changes nothing else in the store. The button is on every card not
      in edit mode, also while another booking is being edited, and the
      edit in progress survives it. */
  lemma SeatOnlyChangesStatus(rs: seq<Reservation>, k: int, st: EditState, f: Filters)
    requires UniqueIds(rs)
    requires 0 <= k < |rs| && SeatOffered(rs[k]) && Matches(rs[k], f)
    requires !InEditMode(st, rs[k])
    ensures var d' := Step(Dashboard(rs, st, FloorView, f), SeatGuests(rs[k]));
      && d'.store == rs[..k] + [rs[k].(status := Seated)] + rs[k + 1..]
      && |d'.store| == |rs|
      && (forall i :: 0 <= i < |rs| && i != k ==> d'.store[i] == rs[i])
      && d'.edit == st
  {
    var d := Dashboard(rs, st, FloorView, f);
    assert Enabled(d, SeatGuests(rs[k])) by {
      assert Drawn(d, rs[k]);
    }
    assert Step(d, SeatGuests(rs[k])).store == Update(rs, Seat(rs[k]));
    UpdateSplice(rs, k, Seat(rs[k]));
  }

  /** The delete button of a drawn row in the list view removes exactly
      that booking's id from the store and keeps every other booking. */
  lemma DeleteDrawnRow(d: Dashboard, r: Reservation)
    requires d.view == ListView && Drawn(d, r) && !InEditMode(d.edit, r)
    ensures var d' := Step(d, Remove(r));
      && Ids(d'.store) == Ids(d.store) - {r.id}
      && (forall x :: x in d'.store <==> x in d.store && x.id != r.id)
      && |d'.store| < |d.store|
      && d'.edit == d.edit && d'.view == d.view && d'.filters == d.filters
  {
    assert Enabled(d, Remove(r));
    var rs' := Step(d, Remove(r)).store;
    assert rs' == Delete(d.store, r.id);
    assert r.id in Ids(d.store);
  }
}
