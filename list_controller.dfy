/**
 * The list controller: it holds the store, the four view fields and the conditioned view the
 * table shows. The sort buttons and the search bar change the view fields; add, edit and
 * delete commit to the store, whose change notification reconditions the view.
 */
module ListControl {
  import opened Options
  import opened ToDoRecord
  import opened RealmStore
  import opened Conditioning
  import opened DetailForm

  /** The kinds of change notification the store delivers. */
  datatype Change = Initial | Update | Error(message: string)

  /**
   * A sort button: the key becomes the button's key and the direction is always reversed,
   * also when the key was a different one.
   */
  function SortPressed(st: ViewState, key: SortKey): (r: ViewState)
    ensures r.sortKey == key && r.ascending != st.ascending
    ensures r.filterActive == st.filterActive && r.searchPredicate == st.searchPredicate
  {
    st.(sortKey := key, ascending := !st.ascending)
  }

  /** Any two presses, of the same button or of different ones, restore the direction. */
  lemma TwoPressesRestoreDirection(st: ViewState, first: SortKey, second: SortKey)
    ensures SortPressed(SortPressed(st, first), second).ascending == st.ascending
    ensures SortPressed(SortPressed(st, first), second).sortKey == second
  {
  }

  /**
   * The search bar's effect on the view fields. Empty text turns filtering off and keeps the
   * predicate; one character changes nothing; longer text always becomes the predicate, but
   * turns filtering on only when some record matches it.
   */
  function SearchChanged(st: ViewState, text: string, anyMatch: bool): (r: ViewState)
    ensures text == "" ==> r == st.(filterActive := false)
    ensures |text| == 1 ==> r == st
    ensures |text| > 1 ==> r.searchPredicate == Some(text)
    ensures |text| > 1 ==> (r.filterActive <==> st.filterActive || anyMatch)
    ensures r.sortKey == st.sortKey && r.ascending == st.ascending
  {
    var cleared := if text == "" then st.(filterActive := false) else st;
    if |text| > 1 then
      cleared.(searchPredicate := Some(text), filterActive := anyMatch || cleared.filterActive)
    else
      cleared
  }

  /** Whether the search bar reconditions the view: on empty text, or a longer text that matches. */
  predicate SearchReconditions(text: string, anyMatch: bool)
  {
    text == "" || (|text| > 1 && anyMatch)
  }

  /**
   * A search that matches nothing while a filter is on leaves the view as it was, yet the new
   * text has become the active predicate: as long as no stored record matches it, the next
   * recondition (a sort button, or a store change that adds no match) shows an empty list.
   */
  lemma MissedSearchEmptiesNextView(base: seq<ToDo>, st: ViewState, text: string)
    requires |text| > 1 && st.filterActive
    requires forall t :: t in base ==> !Matches(t, text)
    ensures !SearchReconditions(text, false)
    ensures Filtering(SearchChanged(st, text, false))
    ensures Condition(base, SearchChanged(st, text, false)) == []
    ensures Condition(base, SortPressed(SearchChanged(st, text, false), PriorityKey)) == []
  {
    var st' := SearchChanged(st, text, false);
    ConditionSpec(base, st');
    FilterNoMatches(SortBy(base, st'.sortKey, st'.ascending), text);
    FilterNoMatches(SortBy(base, PriorityKey, !st'.ascending), text);
  }

  /** A matching search shows exactly the stored records whose name contains the text. */
  lemma MatchingSearchShowsMatches(base: seq<ToDo>, st: ViewState, text: string, t: ToDo)
    requires |text| > 1
    ensures Filtering(SearchChanged(st, text, true))
    ensures t in Condition(base, SearchChanged(st, text, true)) <==> t in base && Matches(t, text)
  {
    ConditionSpec(base, SearchChanged(st, text, true));
  }

  /** Clearing the search shows every stored record again. */
  lemma ClearedSearchShowsAll(base: seq<ToDo>, st: ViewState, anyMatch: bool)
    ensures multiset(Condition(base, SearchChanged(st, "", anyMatch))) == multiset(base)
  {
    ConditionSpec(base, SearchChanged(st, "", anyMatch));
  }

  /** Saving an edit form that was opened on a stored record and left untouched changes nothing. */
  lemma UntouchedEditKeepsStore(store: seq<ToDo>, t: ToDo)
    requires IncreasingIds(store) && t in store && t.priority in PriorityValues
    ensures IndexOf(PriorityValues, t.priority).Some?
    ensures Upsert(store, FormRecord(Some(t), t.name, IndexOf(PriorityValues, t.priority).value, t.date)) == store
  {
    UntouchedEditReturnsRecord(t);
    LookupFindsMember(store, t);
    UpsertStoredIsNoOp(store, t);
  }

  /** A row of a view drawn from the store shows a stored record, so deleting it removes one. */
  lemma ShownRowIsStored(store: seq<ToDo>, shown: seq<ToDo>, row: nat)
    requires IncreasingIds(store) && (forall t :: t in shown ==> t in store)
    requires row < |shown|
    ensures shown[row] in store && Lookup(store, shown[row].id) == Some(shown[row])
    ensures |Delete(store, shown[row])| == |store| - 1
  {
    assert shown[row] in shown;
    IncreasingIdsAreUnique(store);
    LookupFindsMember(store, shown[row]);
  }

  class ListController {
    /** The Realm store, as the base collection `toDos`: every record, in order of id. */
    var store: seq<ToDo>
    var sortKey: SortKey
    var sortDirection: bool
    var filterActive: bool
    var searchPredicate: Option<string>
    /** `conditionedToDos`: what the table shows, row by row. */
    var conditioned: seq<ToDo>

    function State(): ViewState
      reads this
    {
      ViewState(sortKey, sortDirection, filterActive, searchPredicate)
    }

    /**
     * The store holds one record per id, and the table shows stored records only, each once,
     * in the order of the current key and direction.
     */
    ghost predicate Valid()
      reads this
    {
      && IncreasingIds(store)
      && UniqueIds(conditioned)
      && (forall t :: t in conditioned ==> t in store)
      && Ordered(conditioned, sortKey, sortDirection)
    }

    /**
     * Loading the list screen: the view fields at their initial values, the view set to the
     * base collection, then the initial notification reconditions it, which leaves it as is.
     */
    constructor (records: seq<ToDo>)
      requires IncreasingIds(records)
      ensures Valid()
      ensures store == records && State() == InitialState
      ensures conditioned == records
    {
      store := records;
      sortKey := IdKey;
      sortDirection := true;
      filterActive := false;
      searchPredicate := None;
      conditioned := records;
      new;
      assert State() == InitialState;
      InitialConditionIsBase(records);
      var fatal := OnStoreChange(Initial);
      assert conditioned == Condition(records, InitialState);
    }

    /** `conditionToDos`: recompute the view from the store and the view fields. */
    method ConditionToDos()
      requires IncreasingIds(store)
      modifies this`conditioned
      ensures Valid()
      ensures conditioned == Condition(store, State())
    {
      IncreasingIdsAreUnique(store);
      ConditionSpec(store, State());
      conditioned := Condition(store, State());
    }

    /** The store's notification block: recondition on initial and update, stop on error. */
    method OnStoreChange(change: Change) returns (fatal: bool)
      requires IncreasingIds(store)
      modifies this`conditioned
      ensures fatal <==> change.Error?
      ensures !fatal ==> Valid() && conditioned == Condition(store, State())
      ensures fatal ==> conditioned == old(conditioned)
    {
      match change
      case Initial =>
        ConditionToDos();
        fatal := false;
      case Update =>
        ConditionToDos();
        fatal := false;
      case Error(_) =>
        fatal := true;
    }

    /** `add`: create a record under the fresh id `freshId` with `toDo`'s other fields. */
    method Add(toDo: ToDo, freshId: int)
      requires IncreasingIds(store) && Lookup(store, freshId).None?
      modifies this
      ensures Valid() && State() == old(State())
      ensures store == Create(old(store), freshId, toDo)
      ensures conditioned == Condition(store, State())
    {
      store := Create(store, freshId, toDo);
      var fatal := OnStoreChange(Update);
    }

    /** `edit`: write `toDo` over the record with its id, or insert it when there is none. */
    method Edit(toDo: ToDo)
      requires IncreasingIds(store)
      modifies this
      ensures Valid() && State() == old(State())
      ensures store == Upsert(old(store), toDo)
      ensures conditioned == Condition(store, State())
    {
      store := Upsert(store, toDo);
      var fatal := OnStoreChange(Update);
    }

    /** The delete row action: remove the record shown in row `row`, and nothing else. */
    method DeleteAt(row: nat)
      requires IncreasingIds(store) && (forall t :: t in conditioned ==> t in store)
      requires row < |conditioned|
      modifies this
      ensures Valid() && State() == old(State())
      ensures old(conditioned[row]) in old(store)
      ensures Lookup(old(store), old(conditioned[row]).id) == Some(old(conditioned[row]))
      ensures store == Delete(old(store), old(conditioned[row]))
      ensures |store| == |old(store)| - 1
      ensures conditioned == Condition(store, State())
    {
      var doomed := conditioned[row];
      ShownRowIsStored(store, conditioned, row);
      store := Delete(store, doomed);
      var fatal := OnStoreChange(Update);
    }

    /** The priority sort button. */
    method PriorityButton()
      requires IncreasingIds(store)
      modifies this
      ensures Valid() && store == old(store)
      ensures State() == SortPressed(old(State()), PriorityKey)
      ensures conditioned == Condition(store, State())
    {
      sortKey := PriorityKey;
      if sortDirection == true {
        sortDirection := false;
      } else {
        sortDirection := true;
      }
      ConditionToDos();
    }

    /** The date sort button. */
    method DateButton()
      requires IncreasingIds(store)
      modifies this
      ensures Valid() && store == old(store)
      ensures State() == SortPressed(old(State()), DateKey)
      ensures conditioned == Condition(store, State())
    {
      sortKey := DateKey;
      if sortDirection == true {
        sortDirection := false;
      } else {
        sortDirection := true;
      }
      ConditionToDos();
    }

    /**
     * The search bar's text changed: update the view fields as `SearchChanged` says, where a
     * match is sought among all stored records, and recondition only when it says so.
     */
    method SearchTextDidChange(text: string)
      requires Valid()
      modifies this
      ensures Valid() && store == old(store)
      ensures State() == SearchChanged(old(State()), text, Filter(store, text) != [])
      ensures SearchReconditions(text, Filter(store, text) != []) ==> conditioned == Condition(store, State())
      ensures !SearchReconditions(text, Filter(store, text) != []) ==> conditioned == old(conditioned)
    {
      if text == "" {
        filterActive := false;
        ConditionToDos();
      }
      if |text| > 1 {
        searchPredicate := Some(text);
        var filterResults := Filter(store, text);
        if |filterResults| > 0 {
          filterActive := true;
          ConditionToDos();
        }
      }
    }

    /**
     * Returning from the detail form: an "edit" form's record is written over its id, an
     * "add" form's record is created under `freshId`; otherwise nothing happens.
     */
    method UnwindToToDoList(source: DetailController, freshId: int)
      requires Valid()
      requires source.toDo.Some? && source.editType == Some(EditKind.Add) ==> Lookup(store, freshId).None?
      modifies this
      ensures Valid() && State() == old(State())
      ensures source.toDo.Some? && source.editType == Some(EditKind.Edit) ==>
                store == Upsert(old(store), source.toDo.value) && conditioned == Condition(store, State())
      ensures source.toDo.Some? && source.editType == Some(EditKind.Add) ==>
                store == Create(old(store), freshId, source.toDo.value) && conditioned == Condition(store, State())
      ensures source.toDo.None? || source.editType.None? ==>
                store == old(store) && conditioned == old(conditioned)
    {
      if source.toDo.Some? {
        var toDo := source.toDo.value;
        if source.editType == Some(EditKind.Edit) {
          Edit(toDo);
        } else if source.editType == Some(EditKind.Add) {
          Add(toDo, freshId);
        }
      }
    }
  }
}
