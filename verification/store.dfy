/** The R2 bucket as an immutable map from key to object, with the four
    operations the worker calls on it (`head`, `get`, `put`, `delete`). */
module ObjectStore {
  import opened Wrappers

  type Bytes = seq<bv8>

  /** A stored object: its payload and the optional `httpMetadata.contentType`. */
  datatype StoredObject = StoredObject(data: Bytes, contentType: Option<string>)

  type Store = map<string, StoredObject>

  /** One call a handler makes on the bucket; handlers report them in order. */
  datatype StoreCall =
    | HeadCall(key: string)
    | GetCall(key: string)
    | PutCall(key: string)
    | DeleteCall(key: string)

  /** `head(key)`: whether an object is stored under `key`. */
  predicate Head(store: Store, key: string) {
    key in store
  }

  /** `get(key)`: the object under `key`, or `None` where R2 answers `null`. */
  function Get(store: Store, key: string): (r: Option<StoredObject>)
    ensures r.Some? <==> key in store
    ensures r.Some? ==> r.value == store[key]
  {
    if key in store then Some(store[key]) else None
  }

  /** `put(key, obj)`: `key` now holds `obj`; no other key changes. */
  function Put(store: Store, key: string, obj: StoredObject): (s: Store)
    ensures s.Keys == store.Keys + {key}
    ensures s[key] == obj
    ensures forall k :: k in store && k != key ==> s[k] == store[k]
  {
    store[key := obj]
  }

  /** `delete(key)`: `key` is gone whether or not it was there; no other key changes. */
  function Remove(store: Store, key: string): (s: Store)
    ensures s.Keys == store.Keys - {key}
    ensures forall k :: k in s ==> s[k] == store[k]
  {
    store - {key}
  }
}
