/** The part of the Redis command set the cache uses: a keyspace of hashes,
    written field by field with HSET and read with HGET. The store is a value;
    every write returns the new store. */
module HashStore {
  import opened Wrappers

  /** Key -> (field -> value). */
  type Store = map<string, map<string, string>>

  /** HGET key field: the stored value, or None (Redis nil) when either the
      key or the field is missing. */
  function HGet(store: Store, key: string, field: string): Option<string> {
    if key in store && field in store[key] then Some(store[key][field]) else None
  }

  /** HSET key field value: creates the hash when the key is new, overwrites
      the field when it exists, and leaves every other key and field alone. */
  function HSet(store: Store, key: string, field: string, value: string): (r: Store)
    ensures r.Keys == store.Keys + {key}
    ensures HGet(r, key, field) == Some(value)
    ensures forall k, f :: k != key || f != field ==> HGet(r, k, f) == HGet(store, k, f)
  {
    var hash := if key in store then store[key] else map[];
    store[key := hash[field := value]]
  }

  /** Writing a field twice keeps only the second value. */
  lemma HSetOverwrites(store: Store, key: string, field: string, v1: string, v2: string)
    ensures HSet(HSet(store, key, field, v1), key, field, v2) == HSet(store, key, field, v2)
  {
    var a := HSet(HSet(store, key, field, v1), key, field, v2);
    var b := HSet(store, key, field, v2);
    assert a[key] == b[key];
  }

  /** Writing a field with the value it already holds changes nothing more. */
  lemma HSetIdempotent(store: Store, key: string, field: string, value: string)
    ensures HSet(HSet(store, key, field, value), key, field, value) == HSet(store, key, field, value)
  {
    HSetOverwrites(store, key, field, value, value);
  }

  /** One HSET command: key, field, value. */
  datatype Write = Write(key: string, field: string, value: string)

  /** The store after running the writes in order, first to last. */
  function Replay(store: Store, writes: seq<Write>): Store
    decreases |writes|
  {
    if |writes| == 0 then store
    else Replay(HSet(store, writes[0].key, writes[0].field, writes[0].value), writes[1..])
  }

  /** Reference reading: the value of the latest write to (key, field), found
      by scanning the writes from the last one back. */
  function LastWrite(writes: seq<Write>, key: string, field: string): Option<string>
    decreases |writes|
  {
    if |writes| == 0 then None
    else
      var w := writes[|writes| - 1];
      if w.key == key && w.field == field then Some(w.value)
      else LastWrite(writes[..|writes| - 1], key, field)
  }

  /** Running one more write applies it on top of the earlier ones. */
  lemma {:induction false} ReplaySnoc(store: Store, writes: seq<Write>, w: Write)
    ensures Replay(store, writes + [w]) == HSet(Replay(store, writes), w.key, w.field, w.value)
    decreases |writes|
  {
    if |writes| == 0 {
      assert [w][1..] == [];
    } else {
      var next := HSet(store, writes[0].key, writes[0].field, writes[0].value);
      assert (writes + [w])[0] == writes[0];
      assert (writes + [w])[1..] == writes[1..] + [w];
      ReplaySnoc(next, writes[1..], w);
    }
  }

  /** After any sequence of writes, HGET returns the value of the last write
      to that key and field, or what the store held before when no write
      touched them: last writer wins, for any number of writers. */
  lemma {:induction false} ReplayReadsLastWrite(store: Store, writes: seq<Write>, key: string, field: string)
    ensures HGet(Replay(store, writes), key, field)
         == match LastWrite(writes, key, field)
            case Some(v) => Some(v)
            case None => HGet(store, key, field)
    decreases |writes|
  {
    if |writes| > 0 {
      var init := writes[..|writes| - 1];
      var w := writes[|writes| - 1];
      assert writes == init + [w];
      ReplaySnoc(store, init, w);
      ReplayReadsLastWrite(store, init, key, field);
    }
  }
}
