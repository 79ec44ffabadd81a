/**
 * The detail form: it opens either on an existing to-do (edit) or on nothing (add), offers
 * the five priority levels in a picker, and on save hands back a record built from its fields.
 */
module DetailForm {
  import opened Options
  import opened ToDoRecord
  import Conditioning

  /** `editType`: whether the form edits an existing to-do ("edit") or adds a new one ("add"). */
  datatype EditKind = Add | Edit

  /** `priorityValues`: the picker's rows, in order. */
  const PriorityValues: seq<string> := ["1", "2", "3", "4", "5"]

  /** The priority a new to-do starts with. */
  const DefaultPriority: string := "3"

  /** `Array.index(of:)`: the first position holding `p`, or none. */
  function IndexOf(values: seq<string>, p: string): (r: Option<nat>)
    ensures r.Some? ==> r.value < |values| && values[r.value] == p
    ensures r.Some? ==> forall j :: 0 <= j < r.value ==> values[j] != p
    ensures r.None? <==> p !in values
  {
    if values == [] then None
    else if values[0] == p then Some(0)
    else
      match IndexOf(values[1..], p)
      case None =>
        assert values == [values[0]] + values[1..];
        None
      case Some(i) => Some(i + 1)
  }

  /** The priority values are distinct, so each one's index is its row. */
  lemma PriorityRowsAreIndexes(row: nat)
    requires row < |PriorityValues|
    ensures IndexOf(PriorityValues, PriorityValues[row]) == Some(row)
  {
  }

  /** A new to-do's form selects the middle row, whose title is the default priority. */
  lemma DefaultPriorityRow()
    ensures DefaultPriority in PriorityValues
    ensures IndexOf(PriorityValues, DefaultPriority) == Some(2)
  {
  }

  /** The picker's one component has a row per priority value: five rows. */
  function NumberOfRows(): (n: nat)
    ensures n == 5
  {
    |PriorityValues|
  }

  /** The title of picker row `row`: the priority value in that position. */
  function TitleForRow(row: nat): (title: string)
    requires row < NumberOfRows()
    ensures title in PriorityValues && IndexOf(PriorityValues, title) == Some(row)
  {
    PriorityRowsAreIndexes(row);
    PriorityValues[row]
  }

  /**
   * The record `prepare(for:sender:)` hands back: the existing record's id when editing and 0
   * when adding, the name and date as entered, and the priority of the selected picker row,
   * so always one of the five values.
   */
  function FormRecord(existing: Option<ToDo>, name: string, row: nat, date: Date): (t: ToDo)
    requires row < |PriorityValues|
    ensures t.id == (if existing.Some? then existing.value.id else 0)
    ensures t.name == name && t.date == date
    ensures t.priority in PriorityValues && IndexOf(PriorityValues, t.priority) == Some(row)
  {
    var id := if existing.Some? then existing.value.id else 0;
    PriorityRowsAreIndexes(row);
    ToDo(id, name, PriorityValues[row], date)
  }

  /** An edit form opened on `t` and saved untouched hands back `t` itself. */
  lemma UntouchedEditReturnsRecord(t: ToDo)
    requires t.priority in PriorityValues
    ensures IndexOf(PriorityValues, t.priority).Some?
    ensures FormRecord(Some(t), t.name, IndexOf(PriorityValues, t.priority).value, t.date) == t
  {
  }

  /** No validation: an empty name is handed back as it is. */
  lemma EmptyNameAccepted(existing: Option<ToDo>, row: nat, date: Date)
    requires row < |PriorityValues|
    ensures FormRecord(existing, "", row, date).name == ""
  {
  }

  /** For the five levels, text order and numeric order agree. */
  lemma PriorityTextOrderIsRank(i: nat, j: nat)
    requires i < |PriorityValues| && j < |PriorityValues|
    ensures Conditioning.LexLeq(PriorityValues[i], PriorityValues[j]) <==> i <= j
  {
  }

  /** Priority is free text and sorts as text: "10" sorts before "9". */
  lemma PriorityOrderIsNotNumeric()
    ensures Conditioning.LexLeq("10", "9") && !Conditioning.LexLeq("9", "10")
  {
    assert "10"[1..] == "0";
  }

  /**
   * The detail controller's state: the to-do it was opened on (replaced on save by the record
   * it hands back), `editType` (unset until the view loads), and the three form fields: the
   * name text, the selected picker row and the date picker's date.
   */
  class DetailController {
    var toDo: Option<ToDo>
    var editType: Option<EditKind>
    var name: string
    var selectedRow: nat
    var date: Date

    ghost predicate Valid()
      reads this
    {
      selectedRow < |PriorityValues|
    }

    /** The form as the list screen presents it: opened on `passed`, fields at their defaults. */
    constructor (passed: Option<ToDo>, now: Date)
      ensures Valid()
      ensures toDo == passed && editType == None
      ensures name == "" && selectedRow == 0 && date == now
    {
      toDo := passed;
      editType := None;
      name := "";
      selectedRow := 0;
      date := now;
    }

    /** `setPickerPriority`: select the row of `priority`; an unknown value selects nothing. */
    method SetPickerPriority(priority: string)
      requires Valid()
      modifies this`selectedRow
      ensures Valid()
      ensures priority in PriorityValues ==> PriorityValues[selectedRow] == priority
      ensures priority !in PriorityValues ==> selectedRow == old(selectedRow)
    {
      match IndexOf(PriorityValues, priority)
      case Some(i) => selectedRow := i;
      case None =>
    }

    /** `viewDidLoad`: decide edit or add and fill the form from the record, if any. */
    method ViewDidLoad()
      requires Valid()
      modifies this
      ensures Valid() && toDo == old(toDo)
      ensures toDo.Some? ==> && editType == Some(Edit)
                             && name == toDo.value.name && date == toDo.value.date
      ensures toDo.Some? && toDo.value.priority in PriorityValues ==>
                PriorityValues[selectedRow] == toDo.value.priority
      ensures toDo.Some? && toDo.value.priority !in PriorityValues ==>
                selectedRow == old(selectedRow)
      ensures toDo.None? ==> && editType == Some(Add) && selectedRow == 2
                             && PriorityValues[selectedRow] == DefaultPriority
                             && name == old(name) && date == old(date)
    {
      match toDo
      case Some(t) =>
        name := t.name;
        SetPickerPriority(t.priority);
        date := t.date;
        editType := Some(Edit);
      case None =>
        SetPickerPriority(DefaultPriority);
        editType := Some(Add);
    }

    /** `prepare(for:sender:)`: replace `toDo` by the record built from the form. */
    method Prepare()
      requires Valid()
      modifies this`toDo
      ensures Valid()
      ensures toDo == Some(FormRecord(old(toDo), name, selectedRow, date))
    {
      var id := 0;
      if toDo.Some? {
        id := toDo.value.id;
      }
      var priority := PriorityValues[selectedRow];
      toDo := Some(ToDo(id, name, priority, date));
    }
  }
}
