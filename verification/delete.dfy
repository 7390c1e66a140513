/** The `DELETE /:key` handler (src/index.ts:104-108), once the Basic-auth
    guard has let the request through. */
module DeletionHandler {
  import opened ObjectStore
  import opened Http

  const DELETED: string := "OK"

  /** The key is gone afterwards, every other object is untouched, and the
      answer is `OK` whether or not the key existed. */
  function HandleDelete(store: Store, key: string): (o: Outcome)
    ensures o.store.Keys == store.Keys - {key}
    ensures forall k :: k in o.store ==> o.store[k] == store[k]
    ensures o.response == TextResponse(OK, DELETED)
    ensures o.calls == [DeleteCall(key)]
  {
    Outcome(Remove(store, key), TextResponse(OK, DELETED), [DeleteCall(key)])
  }

  /** Deleting twice leaves the same bucket and the same answer as deleting once. */
  lemma DeleteIdempotent(store: Store, key: string)
    ensures var once := HandleDelete(store, key);
            var twice := HandleDelete(once.store, key);
            twice.store == once.store && twice.response == once.response
  {
    var once := HandleDelete(store, key);
    assert HandleDelete(once.store, key).store == once.store;
  }

  /** Deleting a key that is not there changes nothing. */
  lemma DeleteAbsentKey(store: Store, key: string)
    requires key !in store
    ensures HandleDelete(store, key).store == store
  {
    assert HandleDelete(store, key).store.Keys == store.Keys;
  }
}
