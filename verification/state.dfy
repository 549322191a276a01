/**
 * `State` (still_shaken/src/bot/state.rs): a store holding at most one value
 * per type. A type is identified here by its name, the text the error
 * messages show; the stored values are of one type `V`.
 */
module States {
  import opened Wrappers

  type Store<V> = map<string, V>

  /** What `insert` leaves behind and reports: the new value always replaces the old one. */
  function Inserted<V>(m: Store<V>, key: string, item: V): (r: (Store<V>, Result<(), string>))
  {
    (m[key := item],
     if key in m then Err("'" + key + "' already existed in state") else Ok(()))
  }

  /** What `remove` leaves behind and reports. */
  function Removed<V>(m: Store<V>, key: string): (r: (Store<V>, Result<(), string>))
  {
    (m - {key}, if key in m then Ok(()) else Err("could not find '" + key + "'"))
  }

  /** What `get` (and `get_mut`) finds. */
  function Lookup<V>(m: Store<V>, key: string): (r: Result<V, string>)
  {
    if key in m then Ok(m[key]) else Err("cannot get '" + key + "'")
  }

  /**
   * `get_mut` followed by a write through the reference it hands out: the
   * stored value becomes `update` of itself; a missing value is an error.
   */
  function Updated<V>(m: Store<V>, key: string, update: V -> V): (r: (Store<V>, Result<(), string>))
  {
    if key in m then (m[key := update(m[key])], Ok(()))
    else (m, Err("cannot get '" + key + "'"))
  }

  class State<V> {
    var items: Store<V>

    /** `State::default()`. */
    constructor()
      ensures items == map[]
    {
      items := map[];
    }

    /** `contains::<T>`. */
    predicate Contains(key: string)
      reads this
    {
      key in items
    }

    /** `insert`. */
    method Insert(key: string, item: V) returns (r: Result<(), string>)
      modifies this
      ensures (items, r) == Inserted(old(items), key, item)
    {
      var existed := key in items;
      items := items[key := item];
      if existed {
        return Err("'" + key + "' already existed in state");
      }
      return Ok(());
    }

    /** `remove`. */
    method Remove(key: string) returns (r: Result<(), string>)
      modifies this
      ensures (items, r) == Removed(old(items), key)
    {
      var existed := key in items;
      items := items - {key};
      if existed {
        return Ok(());
      }
      return Err("could not find '" + key + "'");
    }

    /** `get`. */
    function Get(key: string): (r: Result<V, string>)
      reads this
      ensures r == Lookup(items, key)
    {
      Lookup(items, key)
    }

    /** `get_mut`, with the caller's write through the reference as `update`. */
    method GetMut(key: string, update: V -> V) returns (r: Result<(), string>)
      modifies this
      ensures (items, r) == Updated(old(items), key, update)
    {
      if key in items {
        items := items[key := update(items[key])];
        return Ok(());
      }
      return Err("cannot get '" + key + "'");
    }
  }

  /** `insert` succeeds exactly when nothing was stored, and afterwards the value is there. */
  lemma InsertStores<V>(m: Store<V>, key: string, item: V)
    ensures Inserted(m, key, item).1.Ok? <==> key !in m
    ensures Lookup(Inserted(m, key, item).0, key) == Ok(item)
  {
  }

  /** An `insert` that reports an error has still replaced the old value. */
  lemma InsertOverwrites<V>(m: Store<V>, key: string, item: V)
    requires key in m
    ensures Inserted(m, key, item).1 == Err("'" + key + "' already existed in state")
    ensures Inserted(m, key, item).0[key] == item
  {
  }

  /** `remove` fails exactly when nothing was stored, and afterwards nothing is. */
  lemma RemoveClears<V>(m: Store<V>, key: string)
    ensures Removed(m, key).1.Err? <==> key !in m
    ensures key !in Removed(m, key).0
    ensures Lookup(Removed(m, key).0, key) == Err("cannot get '" + key + "'")
  {
  }

  /** Every operation leaves the values of the other types as they were. */
  lemma OthersUntouched<V>(m: Store<V>, key: string, other: string, item: V, update: V -> V)
    requires other != key
    ensures Lookup(Inserted(m, key, item).0, other) == Lookup(m, other)
    ensures Lookup(Removed(m, key).0, other) == Lookup(m, other)
    ensures Lookup(Updated(m, key, update).0, other) == Lookup(m, other)
  {
  }

  /** Inserting a new value and removing it again restores the store. */
  lemma InsertRemove<V>(m: Store<V>, key: string, item: V)
    requires key !in m
    ensures Removed(Inserted(m, key, item).0, key) == (m, Ok(()))
  {
    assert m[key := item] - {key} == m;
  }

  /** `get` returns the value of the last `insert`, however many came before. */
  lemma {:induction false} LastInsertWins<V>(m: Store<V>, key: string, items: seq<V>)
    requires items != []
    ensures Lookup(InsertAll(m, key, items), key) == Ok(items[|items| - 1])
    decreases |items|
  {
    if |items| > 1 {
      LastInsertWins(Inserted(m, key, items[0]).0, key, items[1..]);
      assert items[1..][|items[1..]| - 1] == items[|items| - 1];
    }
  }

  /** The store after inserting each of `items` under `key`, in turn. */
  function InsertAll<V>(m: Store<V>, key: string, items: seq<V>): Store<V>
    decreases |items|
  {
    if items == [] then m else InsertAll(Inserted(m, key, items[0]).0, key, items[1..])
  }

  /** `get_mut` reaches exactly the values `get` finds. */
  lemma UpdateFound<V>(m: Store<V>, key: string, update: V -> V)
    ensures Updated(m, key, update).1.Ok? <==> Lookup(m, key).Ok?
    ensures Lookup(m, key).Ok? ==> Lookup(Updated(m, key, update).0, key) == Ok(update(Lookup(m, key).value))
  {
  }
}
