/**
 * The to-do record. In the source it is a Realm object with four properties, each with a
 * default value, and `id` declared as the primary key.
 */
module ToDoRecord {

  /** A point in time, as whole seconds; only compared with `<`. */
  type Date = int

  /** One to-do: its primary key, the user's text, the priority as text, and the due date. */
  datatype ToDo = ToDo(id: int, name: string, priority: string, date: Date)

  /** A default-constructed record: id 0, empty name and priority, and the current time as date. */
  function DefaultToDo(now: Date): (t: ToDo)
    ensures t.id == 0 && t.name == "" && t.priority == ""
    ensures t.date == now
  {
    ToDo(0, "", "", now)
  }

  /** No two positions of `s` hold records with the same id. */
  ghost predicate UniqueIds(s: seq<ToDo>)
  {
    forall i, j :: 0 <= i < j < |s| ==> s[i].id != s[j].id
  }

  /** The ids of `s` strictly increase: the order of a collection sorted by its primary key. */
  ghost predicate IncreasingIds(s: seq<ToDo>)
  {
    forall i, j :: 0 <= i < j < |s| ==> s[i].id < s[j].id
  }

  lemma IncreasingIdsAreUnique(s: seq<ToDo>)
    requires IncreasingIds(s)
    ensures UniqueIds(s)
  {
  }
}
