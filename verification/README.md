# Restaurant reservations: store and admin dashboard, modelled in Dafny

This project models the two pieces of logic in the restaurant booking
application that are more than markup:

- the **reservation store** hook (`src/hooks/userReservations.ts`), which
  loads the list of bookings from browser storage (or seeds three example
  bookings), and rewrites it on add, update, delete and on a
  `CANCEL_RESERVATION` message from the notification service worker;
- the **admin dashboard** (`src/components/AdminPage.tsx`), which derives
  three statistics, filters the list by date, guest name and dining area,
  sorts it by date and time, groups it into one card per area in the floor
  view, and lets the operator edit one booking at a time, seat a booking
  with a single click, or delete it.

Every operation is a pure function over immutable values: the store's
state is a `seq<Reservation>`, and each hook callback is a function from
the old list to the new one. The record and its enumerations come from
`src/types.ts`. Dates (`YYYY-MM-DD`) and times (`HH:MM`) are strings
compared lexicographically. "Today" and the fresh id of a new booking are
parameters.

Modules, one per file:

| file | module | models |
|---|---|---|
| optional.dfy | `Optional` | optional fields and `null` state |
| types.dfy | `Types` | `Reservation`, `Status`, `Occasion`, `Area`, the add input, id sets |
| text.dfy | `Text` | lexicographic order, ASCII lower-casing, substring search |
| store.dfy | `Store` | initial load, add, update, delete, cancel message, id uniqueness |
| stats.dfy | `Stats` | the three dashboard figures and how store operations move them |
| filtering.dfy | `Filtering` | the filter predicate and the (date, time) sort |
| floor.dfy | `Floor` | per-area cards of the floor view |
| editing.dfy | `Editing` | edit mode, the edit form's inputs, the seat action, the dashboard step |

Behaviour of the code that the model keeps as written:

- `Occasion` has five values (src/types.ts:21).
- A storage read that throws gives the empty list and no seed is written
  (src/hooks/userReservations.ts:8, 55-57). A seed write that throws also
  gives the empty list, because the write sits in the same `try` block
  (src/hooks/userReservations.ts:53, 55-57).
- An empty stored string counts as absent, because `""` is falsy, so the
  seed is used (src/hooks/userReservations.ts:9).
- The cancel button clears only `editingId` (src/components/AdminPage.tsx:234,
  343). The scratch copy stays, but no row is drawn in edit mode any more,
  so no save button is drawn either.
- Every control acts only where it is drawn. Edit appears on every drawn
  booking that is not in edit mode (src/components/AdminPage.tsx:280, 374).
  Delete appears only in the list view (:281). "Accomoda" appears only on
  floor cards of bookings that are neither seated nor completed (:365).
  The inputs, save and cancel appear only on the drawn booking in edit
  mode (:214, 317).

## Model

| member | source | states |
|---|---|---|
| Store.Seed | src/hooks/userReservations.ts:13-52 | three seed bookings with ids "1","2","3" and statuses Confirmed, Pending, Seated; the first two dated today; each deposit is ten per guest; ids unique |
| Store.InitialReservations | src/hooks/userReservations.ts:6-59 | a stored, parseable list is returned as is; nothing stored gives the seed when it could be written back; a failed read, a failed parse or a failed seed write gives the empty list |
| Store.InitialIsStoredSeedOrEmpty | src/hooks/userReservations.ts:6-59 | the starting list is always the stored one, the seed or empty, and a read or parse failure never yields the seed |
| Store.Add | src/hooks/userReservations.ts:97-106 | returns the id it assigned; the new list is one longer, starts with a Pending booking under that id carrying every input field, and continues with the old list unchanged |
| Store.NewRecord | src/hooks/userReservations.ts:99-103 | the new booking carries every input field, the given id and status Pending |
| Store.DeleteUndoesAdd | src/hooks/userReservations.ts:97-116 | deleting the id that add just assigned (when it was fresh) gives back the old list |
| Store.Update | src/hooks/userReservations.ts:108-112 | length kept; entries with the argument's id become the argument, all others stay; an unknown id changes nothing |
| Store.UpdateIds | src/hooks/userReservations.ts:108-112 | update never changes the set of ids, since a replaced entry carries the same id |
| Store.UpdateSplice | src/hooks/userReservations.ts:108-112 | with unique ids, updating the booking at k replaces that position only |
| Store.UpdateIdempotent | src/hooks/userReservations.ts:108-112 | applying the same update twice equals applying it once |
| Store.Delete | src/hooks/userReservations.ts:114-116 | an entry survives iff its id differs; the id set loses exactly that id; a present id makes the list strictly shorter; an unknown id changes nothing |
| Store.DeleteAppend | src/hooks/userReservations.ts:114-116 | delete works piecewise over concatenation, so survivors keep their relative order |
| Store.DeleteIdempotent | src/hooks/userReservations.ts:114-116 | deleting the same id twice equals deleting it once |
| Store.CancelById | src/hooks/userReservations.ts:76-80 | length and ids kept; entries with the id get status Cancelled and nothing else changes; other entries are untouched |
| Store.HandleMessage | src/hooks/userReservations.ts:73-82 | a CANCEL_RESERVATION message cancels the matching entries; a message of another type or without data leaves the list unchanged |
| Store.CancelIsUpdate | src/hooks/userReservations.ts:74-81 | with unique ids, cancelling by id equals updating that booking with a cancelled copy |
| Store.CancelIdempotent | src/hooks/userReservations.ts:76-80 | cancelling twice equals cancelling once |
| Store.AddKeepsIdsUnique | src/hooks/userReservations.ts:97-106 | add under a fresh id keeps ids unique and adds exactly the new id to the id set |
| Store.UpdateKeepsIdsUnique | src/hooks/userReservations.ts:108-112 | update never creates a duplicate id |
| Store.DeleteKeepsIdsUnique | src/hooks/userReservations.ts:114-116 | delete keeps ids unique |
| Store.Apply | src/hooks/userReservations.ts:74-116 | add grows the list by one, update and cancel keep its length, delete never grows it |
| Store.ApplyKeepsIdsUnique | src/hooks/userReservations.ts:74-116 | every store operation keeps ids unique, given a fresh id for add |
| Text.LexLeReflexive | src/components/AdminPage.tsx:59-62 | every string is ordered before itself |
| Text.LexLeTotal | src/components/AdminPage.tsx:59-62 | any two strings are comparable |
| Text.LexLeTransitive | src/components/AdminPage.tsx:59-62 | the string order is transitive |
| Text.LexLeAntisymmetric | src/components/AdminPage.tsx:59-62 | strings ordered both ways are equal |
| Text.Lower | src/components/AdminPage.tsx:55 | lower-casing keeps the length and maps each character on its own |
| Text.ContainsAt | src/components/AdminPage.tsx:55 | substring search succeeds iff the query occurs at some position of the name |
| Text.EmptyIsEverywhere | src/components/AdminPage.tsx:55 | the empty query occurs in every name |
| Filtering.Matches | src/components/AdminPage.tsx:53-57 | a booking passes iff its date matches, its area matches and the lowered query occurs at some position of its lowered name; an empty query filters nothing; with every control cleared each booking passes |
| Filtering.Keep | src/components/AdminPage.tsx:53-58 | a booking is kept iff the date filter is empty or equal, the lowered name contains the lowered query, and the area filter is 'Tutti' or equal |
| Filtering.KeepAppend | src/components/AdminPage.tsx:53-58 | filtering works piecewise over concatenation, so it never reorders |
| Filtering.KeepMultiplicity | src/components/AdminPage.tsx:53-58 | a matching booking keeps all its copies, a non-matching one loses all of them |
| Filtering.KeyLe | src/components/AdminPage.tsx:59-62 | bookings with equal date and time are ordered both ways, and an ordered pair has its dates ordered |
| Filtering.KeyLeAntisymmetric | src/components/AdminPage.tsx:59-62 | two bookings ordered both ways share date and time |
| Filtering.KeyLeTotal | src/components/AdminPage.tsx:59-62 | the (date, time) comparator relates any two bookings |
| Filtering.KeyLeTransitive | src/components/AdminPage.tsx:59-62 | the (date, time) comparator is transitive |
| Filtering.Insert | src/components/AdminPage.tsx:59-62 | inserting into a sorted list keeps it sorted and adds exactly that booking |
| Filtering.SortByKey | src/components/AdminPage.tsx:59-62 | the result is sorted by date, then time, and is a permutation of the input |
| Filtering.FilteredReservations | src/components/AdminPage.tsx:51-63 | the list view is sorted, holds a booking iff it is in the store and passes all three filters, with the store's multiplicity |
| Filtering.NoFiltersKeepsAll | src/components/AdminPage.tsx:53-58 | empty date, empty query and 'Tutti' keep every booking in order |
| Filtering.NoFiltersShowsAll | src/components/AdminPage.tsx:51-63 | with no filter set the list view is a permutation of the whole store |
| Floor.OfArea | src/components/AdminPage.tsx:313 | a card lists a booking iff it is in the filtered list and in the card's area |
| Floor.CardsFor | src/components/AdminPage.tsx:303-304 | never more cards than areas; each card is for a shown area and lists that area's bookings |
| Floor.CardsLayout | src/components/AdminPage.tsx:303-304 | 'Tutti' draws the three area cards in order; a selected area draws only its own card |
| Floor.FloorCards | src/components/AdminPage.tsx:303-313 | cards appear exactly for the selected areas, each listing exactly the filtered bookings of its area |
| Floor.AreaSplit | src/components/AdminPage.tsx:303-313 | splitting by the three areas loses and duplicates nothing |
| Floor.OfAreaMultiplicity | src/components/AdminPage.tsx:313 | a card keeps every copy of a booking in its area and nothing else |
| Floor.OfAreaAll | src/components/AdminPage.tsx:313 | when every booking is in area a, the card for a lists them all |
| Floor.CardsPartition | src/components/AdminPage.tsx:303-313 | for a list already restricted by the area selector, the cards together hold exactly its bookings |
| Floor.FloorCardsPartition | src/components/AdminPage.tsx:303-313 | the cards partition the filtered list view |
| Floor.OfAreaSorted | src/components/AdminPage.tsx:313 | each card keeps the (date, time) order of the list view |
| Stats.TodaysReservations | src/components/AdminPage.tsx:40 | today's list is never longer than the store |
| Stats.TodaysMembership | src/components/AdminPage.tsx:40 | today's list holds a booking iff the store does and it is dated today |
| Stats.Covers | src/components/AdminPage.tsx:41 | covers are never negative when no guest count is, and are zero when every booking is cancelled |
| Stats.CountStatus | src/components/AdminPage.tsx:42 | the count is at most the length of the list |
| Stats.CountZeroIff | src/components/AdminPage.tsx:42 | the count is zero iff no entry has that status |
| Stats.ComputeStats | src/components/AdminPage.tsx:38-49 | pending never exceeds the store, and active tables never exceed today's bookings |
| Stats.CoversNonNegative | src/components/AdminPage.tsx:41 | today's covers are never negative when no guest count is |
| Stats.Contribution | src/components/AdminPage.tsx:38-49 | one booking is never both pending and an active table, and an active table brings its guests to covers |
| Stats.StatsOfOne | src/components/AdminPage.tsx:38-49 | the figures of a one-booking list are that booking's contribution |
| Stats.StatsCons | src/components/AdminPage.tsx:38-49 | the figures of a list are its head's contribution plus the figures of its tail |
| Stats.StatsAsSum | src/components/AdminPage.tsx:38-49 | the figures equal the sum of per-booking contributions, a reference definition that never builds today's list |
| Stats.SumAppend | src/components/AdminPage.tsx:38-49 | the sum of contributions is additive over concatenation |
| Stats.TodaysAppend | src/components/AdminPage.tsx:40 | today's bookings of a concatenation are the concatenation of today's bookings |
| Stats.CoversAppend | src/components/AdminPage.tsx:41 | covers are additive over concatenation |
| Stats.CountAppend | src/components/AdminPage.tsx:42 | status counts are additive over concatenation |
| Stats.StatsAppend | src/components/AdminPage.tsx:38-49 | all three figures are additive over concatenation |
| Stats.StatsMiddle | src/components/AdminPage.tsx:38-49 | a booking in the middle of a list adds exactly its contribution |
| Stats.SumWithout | src/components/AdminPage.tsx:38-49 | the sum of contributions without position k is the whole sum less that booking's contribution |
| Stats.SumOrderIndependent | src/components/AdminPage.tsx:38-49 | two permutations of one another have the same sum of contributions |
| Stats.StatsWithout | src/components/AdminPage.tsx:38-49 | removing the booking at k removes exactly its contribution |
| Stats.StatsOrderIndependent | src/components/AdminPage.tsx:38-49 | the figures depend only on the multiset of bookings, not their order |
| Stats.StatsSwap | src/components/AdminPage.tsx:38-49 | swapping one booking for another swaps their contributions |
| Stats.StatsAfterAdd | src/components/AdminPage.tsx:38-49 | a new booking adds one pending request, no active table, and its guests to covers when dated today |
| Stats.StatsAfterUpdate | src/components/AdminPage.tsx:38-49 | updating a booking trades its old contribution for the new one |
| Stats.SeatingAddsActiveTable | src/components/AdminPage.tsx:47 | seating a booking of today that was not seated adds exactly one active table |
| Stats.CancellingRemovesCovers | src/components/AdminPage.tsx:41 | cancelling a booking of today that was not cancelled removes its guests from covers |
| Editing.AtMostOneInEditMode | src/components/AdminPage.tsx:214 | with unique ids at most one booking is drawn in edit mode |
| Editing.BeginEdit | src/components/AdminPage.tsx:65-68 | editing stores the booking's id and a copy of it, and puts that booking in edit mode |
| Editing.CancelEdit | src/components/AdminPage.tsx:234 | cancel clears the id only, keeps the scratch copy, and leaves no booking in edit mode |
| Editing.SaveEdit | src/components/AdminPage.tsx:70-76 | save updates the store with the scratch copy when there is one, else leaves it, and clears both fields |
| Editing.ApplyEdit | src/components/AdminPage.tsx:217-227 | an offered input sets its own field of the scratch copy to the input's value (a failed guests parse gives 0) and keeps the id being edited and every field the form does not offer; guests change only in the floor view; nothing changes outside edit mode |
| Editing.ApplyEdits | src/components/AdminPage.tsx:217-227 | a sequence of inputs keeps the id being edited, and the scratch copy neither appears nor disappears |
| Editing.ApplyEditsFrame | src/components/AdminPage.tsx:321-340 | any sequence of input changes keeps the id, phone, email, occasion, area, notes and deposit of the scratch copy |
| Editing.SeatOffered | src/components/AdminPage.tsx:365 | "Accomoda" is offered exactly for pending, confirmed and cancelled bookings |
| Editing.Seat | src/components/AdminPage.tsx:367 | the seat action submits the same booking with status Seated and every other field unchanged |
| Editing.DrawnIsFiltered | src/components/AdminPage.tsx:212-213 | a booking is drawn iff it is an entry of the filtered list |
| Editing.FormDrawnBy | src/components/AdminPage.tsx:214 | a drawn booking in edit mode puts the form on screen |
| Editing.Step | src/components/AdminPage.tsx:65-76 | the dashboard after one control is used (handlers at :65-76; search :132, date :143 and :148, area :170, toggle :182 and :188, save and cancel :233-234 and :342-343, edit :280 and :374, delete :281, seat :367; a worker message at src/hooks/userReservations.ts:74-81). A control that is not drawn changes nothing. A drawn one has its effect: edit begins an edit, an input changes its field, save stores the scratch copy and closes the form, cancel clears the id, seat and delete update or delete that booking, the toggle sets the view, each filter control sets its own filter, and a message is handled as a cancellation. Each action leaves alone the parts of the dashboard it is not about |
| Editing.StepKeepsInvariants | src/components/AdminPage.tsx:65-76 | every dashboard action keeps the edit state coherent and the store's ids unique |
| Editing.RunKeepsInvariants | src/components/AdminPage.tsx:65-76 | any sequence of actions keeps the edit state coherent and the store's ids unique |
| Editing.IdleFormIsInert | src/components/AdminPage.tsx:214 | with no id being edited and no edit pressed, inputs, save and cancel do nothing, and the edit state stays as it is |
| Editing.CancelThenSave | src/components/AdminPage.tsx:233-234 | cancel leaves the store alone, and a save right after it does nothing |
| Editing.CancelledEditIsNeverSaved | src/components/AdminPage.tsx:214-234 | after cancel, any actions short of a new edit run as if the form's actions were absent, so the abandoned scratch copy is never committed |
| Editing.EditSession | src/components/AdminPage.tsx:65-76 | edit, any inputs and save replace the edited position of the store by the edited copy, which differs only in the fields the view's form offers |
| Editing.EditStatusAndSave | src/components/AdminPage.tsx:65-76 | on the dashboard, editing a drawn booking's status and saving stores it with that status, keeps every other position, and closes the form |
| Editing.StepSessionFrame | src/components/AdminPage.tsx:214-236 | one action short of edit and save keeps the scratch copy and its fixed fields; guests move only through the guests input; only the toggle leaves the list view |
| Editing.SessionFrame | src/components/AdminPage.tsx:321-340 | a session without a new edit or a save keeps the scratch copy's fixed fields; its guest count changes only through a guests input, so never while the view stays in the list |
| Editing.DeleteDrawnRow | src/components/AdminPage.tsx:281 | the delete button of a drawn row in the list view removes exactly that booking's id from the store, keeps every other booking, shortens the list, and leaves the view, filters and edit state alone |
| Editing.SeatOnlyChangesStatus | src/components/AdminPage.tsx:365-367 | in any edit state, the seat action on a drawn card that is not in edit mode and not yet seated or completed replaces that booking by its seated copy, changes nothing else in the store, and keeps the edit in progress |
## Left out

- Browser storage reads and writes, JSON serialisation and the effect that
  persists the list after every change (src/hooks/userReservations.ts:8-11,
  53, 65-71): I/O. The outcome of the read, and whether the seed could be
  written back, are inputs to `Store.InitialReservations`.
- A stored JSON value that parses to something other than a list of
  bookings: the parser's outcome is modelled as either a list or a failure.
- Registering and removing the service-worker listener
  (src/hooks/userReservations.ts:85-93): event plumbing. Only the message
  handler is modelled. A message whose `id` is missing is modelled as
  carrying some string id.
- Id generation from the clock and a random suffix
  (src/hooks/userReservations.ts:98): the fresh id is a parameter, and
  freshness is a precondition of the uniqueness lemmas.
- Reading today's date from the clock (src/components/AdminPage.tsx:39 and
  the seed dates): "today" is a parameter.
- Text.Lower: ASCII lower-casing only; Unicode case mapping is not modelled.
- Filtering.KeyLe: compares strings by character code, not by the locale
  collation of `localeCompare`; the two agree on fixed-width ISO dates and
  times.
- Filtering.SortByKey: does not state which of two bookings with equal
  date and time comes first.
- Types.Reservation: `guests` and `depositAmount` are JavaScript numbers
  (double precision). The model uses unbounded integers, so fractional,
  NaN, infinite or very large values, and rounding in the covers sum
  (src/components/AdminPage.tsx:41), are not modelled. Every writer in the
  code produces integers: the seed (src/hooks/userReservations.ts:13-52)
  and `parseInt(...) || 0` on the floor card
  (src/components/AdminPage.tsx:335).
- Editing.GuestsFromInput: takes the outcome of parsing the number input;
  the parse itself is not modelled. A failed parse gives 0 guests.
- Rendering, styling, `StatCard`, and the status-colour and occasion-icon
  lookup tables (src/components/AdminPage.tsx:78-97): presentation only.
- The password gate (App.tsx, src/App.tsx), the password modal, the
  headers and the static user page (src/components/UserPage.tsx). That page
  has no handlers, so no booking form or deposit computation exists in the
  code to model.
- The older type drafts in types.ts and src/components/types.ts: no core
  file imports them.
- Editing.Step: a worker message is an `Incoming` action taken between two
  clicks. React's batching of state updates and the order of re-renders are
  not modelled; each action sees the state the previous one left.
- Editing.Enabled: "drawn" means the booking passes the filters. Scrolling,
  layout and whether a row is actually visible on screen are not modelled.
