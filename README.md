# ToDo: a verified model of the to-do list core

This project models the sequential core of a small UIKit + Realm to-do app in Dafny and proves
properties of it. The app keeps a list of to-do records in a Realm database, one record per
integer `id`. The list screen shows them sorted by id, priority or date, optionally filtered by
a case-insensitive search on the name. A detail form adds a new record or edits an existing one.

The model follows the three core source files:

- `ToDo/ToDo.swift` becomes the datatype `ToDoRecord.ToDo`. It has four fields with their
  defaults, and `id` is the primary key.
- `ToDo/ToDoListController.swift` is split over three modules.
  - `RealmStore` holds the database as the controller sees it: the base collection `toDos`,
    which is every record in increasing order of id. `Lookup` is the store seen as a map from
    id to record. `Create`, `Upsert` and `Delete` are the three writes the controller commits.
  - `Conditioning` is the pure part of `conditionToDos`. It contains the sort keys, the text
    order used for priorities, an insertion sort by key and direction, the case-insensitive
    "name contains" match and the filter.
  - `ListControl` holds the class `ListController`. Its fields are the store, `sortKey`,
    `sortDirection`, `filterActive`, `searchPredicate` and the displayed `conditioned`
    sequence. Its methods are the two sort buttons, the search-bar handler, add, edit, row
    delete, the store-change notification block and the unwind from the detail form.
    `SortPressed` and `SearchChanged` state how the buttons and the search bar change the
    four view fields.
- `ToDo/ToDoDetailController.swift` becomes `DetailForm`. It holds the five priority values,
  the picker's row count and titles, and the record the form hands back (`FormRecord`). The
  class `DetailController` covers `viewDidLoad` (add or edit), `setPickerPriority` and
  `prepare(for:sender:)`.

How the non-deterministic and foreign parts are modelled:

- The fresh id from `uniqueID()` is a parameter of `Add`. It must not be an id the store
  already holds.
- The current time, which is the default date of a new record and of the date picker, is a
  parameter `now`.
- Dates are integers.
- A store commit is an atomic update of the `store` field. The store's change notification runs
  synchronously right after it.

Three behaviours of the code that a reader may not expect. The model follows each of them:

- Search that matches nothing. For a text of two or more characters, the search-bar handler
  always overwrites `searchPredicate` with the new text. When nothing matches, it keeps
  `filterActive` as it was and does not recondition. `ListControl.MissedSearchEmptiesNextView`
  proves what follows when a filter was already on and no stored record matches the text: the
  view is left as it was, but the next recondition (a sort button, say) filters by the
  unmatched text and shows an empty list. This holds as long as no stored record matches. An
  add or edit that stores a matching name makes the next view non-empty. When the filter was
  off, the overwritten predicate is not used, and the next view shows the whole store.
- Sort, then filter. `conditionToDos` sorts by the key path and then filters. The order among
  records with equal keys is Realm's. The model sorts and then filters, and it claims ordering
  by the key only, not stability.
- Added ids. A new record's id is the current time in whole seconds. The model only requires
  the id to be absent from the store.

## Model

| member | source | states |
|---|---|---|
| ToDoRecord.DefaultToDo | ToDo/ToDo.swift:14-17 | a default record has id 0, empty name and priority, and the current time as date |
| RealmStore.Lookup | ToDo/ToDo.swift:19-21 | looking up a primary key yields a stored record carrying that id, or none when no stored record has it |
| RealmStore.LookupFindsMember | ToDo/ToDo.swift:19-21 | with unique ids, every stored record is exactly what its id looks up |
| RealmStore.Create | ToDo/ToDoListController.swift:89-93 | add stores one new record under the fresh id, with the input's name, priority and date (not its id); all other ids look up as before; the store grows by one |
| RealmStore.Upsert | ToDo/ToDoListController.swift:96-100 | edit leaves exactly the given record under its id and every other id unchanged; the store grows only when the id was absent; ids stay increasing |
| RealmStore.Delete | ToDo/ToDoListController.swift:232-236 | delete removes the record under the given id and keeps every other id; the store shrinks by one only when the id was present |
| RealmStore.DeleteAbsentIsNoOp | ToDo/ToDoListController.swift:232-236 | deleting an id that is not stored leaves the store unchanged |
| RealmStore.DeleteUndoesCreate | ToDo/ToDoListController.swift:89-93 | deleting the record add just created gives back the previous store |
| RealmStore.DeleteUndoesUpsertOfNewId | ToDo/ToDoListController.swift:96-100 | an upsert under a new id followed by its delete gives back the previous store |
| RealmStore.UpsertFormerRecordRestores | ToDo/ToDoListController.swift:96-100 | editing a record and then writing its former fields back gives back the previous store |
| RealmStore.UpsertIdempotent | ToDo/ToDoListController.swift:96-100 | writing the same record twice equals writing it once |
| RealmStore.UpsertStoredIsNoOp | ToDo/ToDoListController.swift:96-100 | writing a record that is already stored, unchanged, leaves the store as it is |
| Conditioning.LexLeqTotal | ToDo/ToDoListController.swift:128-133 | the text order used to sort priorities relates any two strings |
| Conditioning.LexLeqReflexive | ToDo/ToDoListController.swift:128-133 | every string is ordered with itself |
| Conditioning.LexLeqAntisymmetric | ToDo/ToDoListController.swift:128-133 | two strings ordered both ways are equal |
| Conditioning.LexLeqTransitive | ToDo/ToDoListController.swift:128-133 | the text order is transitive |
| Conditioning.BeforeTotal | ToDo/ToDoListController.swift:128-133 | for each key and direction, any two records can be put in order |
| Conditioning.BeforeTransitive | ToDo/ToDoListController.swift:128-133 | the order by key and direction is transitive |
| Conditioning.Insert | ToDo/ToDoListController.swift:128-133 | inserting into a sorted sequence keeps it sorted, adds exactly the one record (multiset) and keeps ids distinct |
| Conditioning.SortBy | ToDo/ToDoListController.swift:128-133 | sorting by key and direction yields an ordered permutation of the input with the same members; distinct ids stay distinct |
| Conditioning.SortOrderedIsIdentity | ToDo/ToDoListController.swift:128-133 | sorting a sequence that is already in order returns it unchanged |
| Conditioning.Contains | ToDo/ToDoListController.swift:262 | the substring test holds exactly when the pattern occurs at some position of the text |
| Conditioning.MatchIgnoresCase | ToDo/ToDoListController.swift:262 | the name match does not depend on the case the search text is typed in |
| Conditioning.NameMatchesItself | ToDo/ToDoListController.swift:262 | a record matches its own name, typed in any case |
| Conditioning.Matches | ToDo/ToDoListController.swift:262 | the predicate `name CONTAINS[c] text`: the lower-cased name contains the lower-cased text; its meaning is stated by MatchesSpec |
| Conditioning.MatchesSpec | ToDo/ToDoListController.swift:262 | a record matches exactly when the lower-cased search text occurs at some position of its lower-cased name |
| Conditioning.Filter | ToDo/ToDoListController.swift:264 | the filter keeps exactly the records that match, drawn from the input |
| Conditioning.FilterNoMatches | ToDo/ToDoListController.swift:264-265 | when no record matches, the filter result is empty |
| Conditioning.FilterKeepsOrder | ToDo/ToDoListController.swift:128 | filtering a sorted sequence keeps it sorted, and keeps ids distinct |
| Conditioning.Filtering | ToDo/ToDoListController.swift:126-128 | filtering applies exactly when filterActive holds and a search predicate is set; otherwise the view is the sorted store |
| Conditioning.Condition | ToDo/ToDoListController.swift:125-134 | `conditionToDos` itself: sort the store by the key and direction, then keep the matches when Filtering holds; what the result is (order, members, permutation) is stated by ConditionSpec |
| Conditioning.ConditionSpec | ToDo/ToDoListController.swift:125-134 | the view is ordered by the key (ascending iff sortDirection) and drawn from the store; with filterActive and a predicate it holds exactly the matching records, otherwise it is a permutation of the whole store; ids stay distinct |
| Conditioning.ConditionAdjacentOrdered | ToDo/ToDoListController.swift:125-134 | neighbouring rows of the view are in order of the key |
| Conditioning.InitialConditionIsBase | ToDo/ToDoListController.swift:47-55 | with the initial fields (id, ascending, no filter) conditioning the id-ordered base collection returns it unchanged |
| Conditioning.TwoRecordExample | ToDo/ToDoListController.swift:125-134 | "Buy milk" (id 1, priority "3") and "Call mom" (id 2, priority "1") show id 2 first by ascending priority and id 1 first descending |
| DetailForm.IndexOf | ToDo/ToDoDetailController.swift:84 | index(of:) returns the first position holding the value, and none exactly when the value is absent |
| DetailForm.PriorityRowsAreIndexes | ToDo/ToDoDetailController.swift:19 | the priority values are distinct: each one's index is its own row |
| DetailForm.DefaultPriorityRow | ToDo/ToDoDetailController.swift:42 | the default priority "3" of a new to-do is an allowed value, at picker row 2 |
| DetailForm.NumberOfRows | ToDo/ToDoDetailController.swift:98-100 | the priority picker has five rows |
| DetailForm.TitleForRow | ToDo/ToDoDetailController.swift:102-104 | row i's title is an allowed priority whose index is i |
| DetailForm.FormRecord | ToDo/ToDoDetailController.swift:59-78 | the record handed back carries the existing id when editing and 0 when adding, the name and date as entered, and the selected row's priority, always one of the five values |
| DetailForm.UntouchedEditReturnsRecord | ToDo/ToDoDetailController.swift:59-78 | an edit form opened on a record with an allowed priority and saved untouched hands back that same record |
| DetailForm.EmptyNameAccepted | ToDo/ToDoDetailController.swift:66-76 | the name is not validated: an empty name is handed back as it is |
| DetailForm.PriorityTextOrderIsRank | ToDo/ToDoDetailController.swift:19 | for the five allowed values the text order agrees with their rank |
| DetailForm.PriorityOrderIsNotNumeric | ToDo/ToDo.swift:16 | priority is free text and sorts as text: "10" comes before "9" |
| DetailForm.DetailController.constructor | ToDo/ToDoDetailController.swift:18-20 | the form starts on the record passed in (or none), with editType unset and picker row 0 |
| DetailForm.DetailController.SetPickerPriority | ToDo/ToDoDetailController.swift:83-87 | a known priority selects its row; an unknown value leaves the selection unchanged |
| DetailForm.DetailController.ViewDidLoad | ToDo/ToDoDetailController.swift:24-45 | with a record: editType is edit and the name, date and (when allowed) priority come from it; without one: editType is add and row 2 ("3") is selected |
| DetailForm.DetailController.Prepare | ToDo/ToDoDetailController.swift:59-78 | toDo becomes the record built from the form fields |
| ListControl.SortPressed | ToDo/ToDoListController.swift:103-122 | a sort button sets the key to its own and always reverses the direction; filter fields are unchanged |
| ListControl.TwoPressesRestoreDirection | ToDo/ToDoListController.swift:103-122 | any two button presses, same key or not, restore the original direction |
| ListControl.SearchChanged | ToDo/ToDoListController.swift:251-270 | empty text turns filtering off and keeps the predicate; one character changes nothing; longer text always becomes the predicate and turns filtering on only if something matches; the sort fields never change |
| ListControl.SearchReconditions | ToDo/ToDoListController.swift:253-267 | the handler reconditions on empty text, or on a text of two or more characters that matches a stored record; a one-character text never does |
| ListControl.MissedSearchEmptiesNextView | ToDo/ToDoListController.swift:261-268 | a search matching nothing while a filter is on does not recondition, but leaves the unmatched text active, so the next recondition of a store in which nothing matches shows an empty list |
| ListControl.MatchingSearchShowsMatches | ToDo/ToDoListController.swift:261-268 | after a matching search the view holds exactly the stored records whose name contains the text |
| ListControl.ClearedSearchShowsAll | ToDo/ToDoListController.swift:253-257 | after clearing the search the view is a permutation of the whole store |
| ListControl.UntouchedEditKeepsStore | ToDo/ToDoListController.swift:76-80 | saving an untouched edit form for a stored record leaves the store unchanged |
| ListControl.ShownRowIsStored | ToDo/ToDoListController.swift:232-236 | the record in a displayed row is stored under its id, so deleting it shrinks the store by one |
| ListControl.ListController.constructor | ToDo/ToDoListController.swift:38-66 | initial fields are id, ascending, no filter, no predicate; the view equals the id-ordered base collection, and the initial notification keeps it so |
| ListControl.ListController.ConditionToDos | ToDo/ToDoListController.swift:125-136 | the view becomes the conditioning of the store under the current fields |
| ListControl.ListController.OnStoreChange | ToDo/ToDoListController.swift:50-63 | initial and update notifications recondition the view; an error is fatal and changes nothing |
| ListControl.ListController.Add | ToDo/ToDoListController.swift:89-93 | the store becomes Create(store, fresh id, record); the view fields are kept and the view is reconditioned |
| ListControl.ListController.Edit | ToDo/ToDoListController.swift:96-100 | the store becomes Upsert(store, record); the view fields are kept and the view is reconditioned |
| ListControl.ListController.DeleteAt | ToDo/ToDoListController.swift:232-236 | exactly the record shown at the row is removed (it was stored, the store shrinks by one) and the view is reconditioned |
| ListControl.ListController.PriorityButton | ToDo/ToDoListController.swift:103-111 | the fields change as SortPressed with the priority key says and the view is reconditioned |
| ListControl.ListController.DateButton | ToDo/ToDoListController.swift:114-122 | the fields change as SortPressed with the date key says and the view is reconditioned |
| ListControl.ListController.SearchTextDidChange | ToDo/ToDoListController.swift:251-270 | the fields change as SearchChanged says, with a match sought in the whole store; the view is reconditioned only for empty text or a matching text of two or more characters, and is otherwise left as it was |
| ListControl.ListController.UnwindToToDoList | ToDo/ToDoListController.swift:76-86 | an edit form's record is upserted, an add form's record is created under the fresh id, and nothing happens otherwise |

The row-delete action at `ToDo/ToDoListController.swift:232-236` and the confirmed delete at
`ToDo/ToDoListController.swift:153-155` run the same write, so `DeleteAt` models both.

`ListController.Valid()` is the controller's invariant. Ids in the store strictly increase, and
the view shows stored records only, each once, in order of the current key and direction. The
invariant deliberately does not claim that the view always equals the conditioning of the
current fields: after a search that matches nothing, the predicate has changed and the view has
not.

## Left out

- UIKit presentation is not modelled: outlets, cell configuration, row-action styling, alerts,
  segues, navigation titles, keyboard handling and memory warnings. The list screen's
  `prepare(for:sender:)` hands the tapped row's record to the form; here that is the
  `DetailController` constructor's argument.
- `DateFormatter` display strings are presentation only and are not modelled.
- Realm internals are not modelled: write transactions, persistence on disk, the background
  notification thread, notification tokens and indexed properties (`indexedProperties` only
  affects speed). A commit is an atomic update of `store`, and its notification runs
  synchronously. In the source `conditionedToDos` is a live Realm result; here it is a value that
  is recomputed on every store change, which is when the source recomputes it too.
- `uniqueID()` reads the wall clock and is not modelled. Its result is the `freshId` argument of
  `Add`, which must not already be stored. That two adds within one second collide is not
  modelled.
- Dates are floating-point time intervals in the source and whole numbers here, compared with `<`.
- `CONTAINS[c]` folds case by Unicode rules inside `NSPredicate`. The model folds ASCII letters
  only (`LowerChar`). The search text's length is its number of characters, not of grapheme
  clusters.
- Realm's string sort order is not visible in the source. The model compares strings by
  character code, position by position (`LexLeq`).
- Conditioning.SortBy: does not claim a stable sort or any particular order among records with
  equal keys, because that order is decided inside Realm and cannot be seen in the source.
- ListControl.ListController.Add: does not prove that the new id is non-zero or larger than the
  earlier ids, because the id comes from the wall clock.
- `fatalError` on an error notification is modelled as `OnStoreChange` returning `fatal` and
  changing nothing. A failed `try! commitWrite()` or `try! Realm()` is not modelled. Creating
  under an id that is already taken throws in Realm, so `Add` requires a fresh id.
- `searchBar.text` and `nameTextField.text` are Swift optionals. Both are taken to be present:
  UIKit returns an empty string rather than nil for them.
