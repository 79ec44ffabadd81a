/**
 * The Realm database as the list controller sees it. The controller's base collection `toDos`
 * is every stored `ToDo` sorted by its primary key `id`; the store is modelled as that sequence,
 * whose ids strictly increase, so each id names at most one record. `Lookup` is the table view
 * by primary key. The three writes the controller commits are `Create` (realm.create with a new
 * id), `Upsert` (realm.add with update: true) and `Delete` (realm.delete).
 */
module RealmStore {
  import opened Options
  import opened ToDoRecord

  /** The record stored under `id`, if any. */
  function Lookup(store: seq<ToDo>, id: int): (r: Option<ToDo>)
    ensures r.Some? ==> r.value in store && r.value.id == id
    ensures r.None? ==> forall t :: t in store ==> t.id != id
  {
    if store == [] then None
    else if store[0].id == id then Some(store[0])
    else Lookup(store[1..], id)
  }

  /** With unique ids, every stored record is what its id looks up. */
  lemma {:induction false} LookupFindsMember(store: seq<ToDo>, t: ToDo)
    requires UniqueIds(store) && t in store
    ensures Lookup(store, t.id) == Some(t)
  {
    if store[0] != t {
      assert UniqueIds(store[1..]);
      assert t in store[1..];
      LookupFindsMember(store[1..], t);
    }
  }

  /** Looking up in `[h] + rest` finds `h` under its own id and otherwise looks in `rest`. */
  lemma LookupCons(h: ToDo, rest: seq<ToDo>, k: int)
    ensures Lookup([h] + rest, k) == if h.id == k then Some(h) else Lookup(rest, k)
  {
    assert ([h] + rest)[1..] == rest;
  }

  /** A record whose id is below every id of the increasing `rest` can be put in front. */
  lemma ConsIncreasing(h: ToDo, rest: seq<ToDo>)
    requires IncreasingIds(rest)
    requires forall u :: u in rest ==> h.id < u.id
    ensures IncreasingIds([h] + rest)
  {
    var r := [h] + rest;
    forall i, j | 0 <= i < j < |r|
      ensures r[i].id < r[j].id
    {
      if i == 0 {
        assert r[j] == rest[j - 1];
      }
    }
  }

  /** In an increasing sequence every later record has a larger id than the first. */
  lemma TailIdsAbove(s: seq<ToDo>)
    requires s != [] && IncreasingIds(s)
    ensures IncreasingIds(s[1..])
    ensures forall u :: u in s[1..] ==> s[0].id < u.id
  {
    forall u | u in s[1..]
      ensures s[0].id < u.id
    {
      var k :| 0 <= k < |s[1..]| && s[1..][k] == u;
      assert s[k + 1] == u;
    }
  }

  /** An id below the first id of an increasing sequence names no record in it. */
  lemma LookupBelowFirst(store: seq<ToDo>, k: int)
    requires store != [] && IncreasingIds(store) && k < store[0].id
    ensures Lookup(store, k).None?
  {
    TailIdsAbove(store);
  }

  /** Looking up in `[h] + rest`, for every id. */
  lemma LookupConsAll(h: ToDo, rest: seq<ToDo>)
    ensures forall k :: Lookup([h] + rest, k) == if h.id == k then Some(h) else Lookup(rest, k)
  {
    forall k
      ensures Lookup([h] + rest, k) == if h.id == k then Some(h) else Lookup(rest, k)
    {
      LookupCons(h, rest, k);
    }
  }

  /**
   * `realm.add(t, update: true)`: afterwards `t` is the one record under `t.id`, every other id
   * looks up what it did before, and the store grows only when `t.id` was absent.
   */
  function Upsert(store: seq<ToDo>, t: ToDo): (r: seq<ToDo>)
    requires IncreasingIds(store)
    ensures IncreasingIds(r)
    ensures forall u :: u in r ==> u == t || u in store
    ensures Lookup(r, t.id) == Some(t)
    ensures forall k :: k != t.id ==> Lookup(r, k) == Lookup(store, k)
    ensures |r| == if Lookup(store, t.id).Some? then |store| else |store| + 1
  {
    if store == [] then [t]
    else
      TailIdsAbove(store);
      if t.id < store[0].id then
        LookupBelowFirst(store, t.id);
        ConsIncreasing(t, store);
        LookupConsAll(t, store);
        [t] + store
      else if t.id == store[0].id then
        ConsIncreasing(t, store[1..]);
        LookupConsAll(t, store[1..]);
        [t] + store[1..]
      else
        var rest := Upsert(store[1..], t);
        ConsIncreasing(store[0], rest);
        LookupConsAll(store[0], rest);
        [store[0]] + rest
  }

  /**
   * `realm.create` with the id from `uniqueID()`: a new record under `id` carrying `t`'s name,
   * priority and date. Realm refuses a primary key that is already taken, hence the requires.
   */
  function Create(store: seq<ToDo>, id: int, t: ToDo): (r: seq<ToDo>)
    requires IncreasingIds(store) && Lookup(store, id).None?
    ensures IncreasingIds(r) && |r| == |store| + 1
    ensures Lookup(r, id) == Some(ToDo(id, t.name, t.priority, t.date))
    ensures forall k :: k != id ==> Lookup(r, k) == Lookup(store, k)
  {
    Upsert(store, ToDo(id, t.name, t.priority, t.date))
  }

  /** `realm.delete(t)`: the record under `t.id` goes, every other id is kept as it was. */
  function Delete(store: seq<ToDo>, t: ToDo): (r: seq<ToDo>)
    requires IncreasingIds(store)
    ensures IncreasingIds(r)
    ensures forall u :: u in r ==> u in store
    ensures Lookup(r, t.id).None?
    ensures forall k :: k != t.id ==> Lookup(r, k) == Lookup(store, k)
    ensures |r| == if Lookup(store, t.id).Some? then |store| - 1 else |store|
  {
    if store == [] then []
    else
      TailIdsAbove(store);
      if store[0].id == t.id then
        store[1..]
      else
        var rest := Delete(store[1..], t);
        ConsIncreasing(store[0], rest);
        LookupConsAll(store[0], rest);
        [store[0]] + rest
  }

  /** Deleting a record whose id is not stored leaves the model's store as it is. */
  lemma {:induction false} DeleteAbsentIsNoOp(store: seq<ToDo>, t: ToDo)
    requires IncreasingIds(store) && Lookup(store, t.id).None?
    ensures Delete(store, t) == store
  {
    if store != [] {
      DeleteAbsentIsNoOp(store[1..], t);
    }
  }

  /** Deleting a record just inserted under a new id gives back the store as it was. */
  lemma {:induction false} DeleteUndoesUpsertOfNewId(store: seq<ToDo>, t: ToDo)
    requires IncreasingIds(store) && Lookup(store, t.id).None?
    ensures Delete(Upsert(store, t), t) == store
  {
    if store != [] && t.id > store[0].id {
      DeleteUndoesUpsertOfNewId(store[1..], t);
    }
  }

  /** Deleting the record `add` just created gives back the store as it was. */
  lemma DeleteUndoesCreate(store: seq<ToDo>, id: int, t: ToDo)
    requires IncreasingIds(store) && Lookup(store, id).None?
    ensures Delete(Create(store, id, t), ToDo(id, t.name, t.priority, t.date)) == store
  {
    DeleteUndoesUpsertOfNewId(store, ToDo(id, t.name, t.priority, t.date));
  }

  /** Editing a record, then editing it back to its former fields, gives back the store. */
  lemma {:induction false} UpsertFormerRecordRestores(store: seq<ToDo>, t: ToDo, former: ToDo)
    requires IncreasingIds(store) && Lookup(store, t.id) == Some(former)
    ensures Upsert(Upsert(store, t), former) == store
  {
    if store[0].id != t.id {
      UpsertFormerRecordRestores(store[1..], t, former);
    }
  }

  /** Writing the same record twice is the same as writing it once. */
  lemma {:induction false} UpsertIdempotent(store: seq<ToDo>, t: ToDo)
    requires IncreasingIds(store)
    ensures Upsert(Upsert(store, t), t) == Upsert(store, t)
  {
    if store != [] && t.id > store[0].id {
      UpsertIdempotent(store[1..], t);
    }
  }

  /** Writing a record that is already stored, unchanged, leaves the store as it is. */
  lemma {:induction false} UpsertStoredIsNoOp(store: seq<ToDo>, t: ToDo)
    requires IncreasingIds(store) && Lookup(store, t.id) == Some(t)
    ensures Upsert(store, t) == store
  {
    if store[0].id != t.id {
      UpsertStoredIsNoOp(store[1..], t);
    } else {
      assert store == [store[0]] + store[1..];
    }
  }
}
