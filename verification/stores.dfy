/** Persistent stores: the values of `STORE` declarations outlive one run
    of a script and are looked up by script name and store name. */
module Stores {
  import opened Values

  /** `StoreKey`: the pair (script name, store name). */
  datatype StoreKey = StoreKey(script: string, store: string)

  /** A backing store. `Backed` stands for any implementation that keeps
      what it is given (the database one is not part of this model);
      `AlwaysEmpty` is the store evaluated code runs with. */
  datatype PersistentStore = Backed(contents: map<StoreKey, Value>) | AlwaysEmpty

  /** `read_values`: the stored values of the requested keys that are
      present. */
  function ReadValues(store: PersistentStore, keys: set<StoreKey>): (r: map<StoreKey, Value>)
    ensures forall k :: k in r ==> k in keys
    ensures store.AlwaysEmpty? ==> |r| == 0
    ensures store.Backed? ==> forall k :: k in keys && k in store.contents ==> k in r && r[k] == store.contents[k]
  {
    match store
    case AlwaysEmpty => map[]
    case Backed(contents) => map k | k in keys && k in contents :: contents[k]
  }

  /** `store_values`: a backed store takes the given values over its old
      ones; the always-empty store ignores them. */
  function StoreValues(store: PersistentStore, values: map<StoreKey, Value>): (r: PersistentStore)
    ensures store.AlwaysEmpty? <==> r.AlwaysEmpty?
    ensures r.Backed? ==> forall k :: k in values ==> k in r.contents && r.contents[k] == values[k]
    ensures r.Backed? ==> forall k :: k in store.contents && k !in values ==> k in r.contents && r.contents[k] == store.contents[k]
  {
    match store
    case AlwaysEmpty => AlwaysEmpty
    case Backed(contents) => Backed(contents + values)
  }

  /** Storing through the always-empty store and reading back still
      yields nothing. */
  lemma StoreThenReadEmpty(values: map<StoreKey, Value>, keys: set<StoreKey>)
    ensures ReadValues(StoreValues(AlwaysEmpty, values), keys) == map[]
  {
    var r := ReadValues(StoreValues(AlwaysEmpty, values), keys);
    assert r.Keys == {} by {
      assert |r| == 0;
    }
  }

  /** A backed store reads back what was stored, for every requested key. */
  lemma StoreThenReadBacked(contents: map<StoreKey, Value>, values: map<StoreKey, Value>, keys: set<StoreKey>)
    requires values.Keys <= keys
    ensures var r := ReadValues(StoreValues(Backed(contents), values), keys);
            forall k :: k in values ==> k in r && r[k] == values[k]
  {
  }
}
