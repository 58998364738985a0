/** A bounded recency list, as the page cache uses one: looking an entry up makes it the most recent, inserting
    into a full list drops the least recent (executor/src/rt/vm/storage.rs:112-120, 193-195, 236-280). */
module Lru {
  import opened Collections
  import opened Wrappers

  datatype Entry<K, V> = Entry(key: K, value: V)

  /** The keys, most recent first. */
  ghost function Keys<K, V>(list: seq<Entry<K, V>>): (r: seq<K>)
    ensures |r| == |list|
  {
    seq(|list|, i requires 0 <= i < |list| => list[i].key)
  }

  function Without<K(==), V>(list: seq<Entry<K, V>>, key: K): seq<Entry<K, V>> {
    if list == [] then []
    else if list[0].key == key then Without(list[1..], key)
    else [list[0]] + Without(list[1..], key)
  }

  function Find<K(==), V>(list: seq<Entry<K, V>>, key: K): Option<V> {
    if list == [] then None
    else if list[0].key == key then Some(list[0].value)
    else Find(list[1..], key)
  }

  /** `get`: the entry found becomes the most recent. */
  function Touch<K(==), V>(list: seq<Entry<K, V>>, key: K): seq<Entry<K, V>> {
    match Find(list, key)
    case None => list
    case Some(v) => [Entry(key, v)] + Without(list, key)
  }

  /** `insert`: the least recent entry is dropped when there are more than `capacity`. */
  function Put<K(==), V>(list: seq<Entry<K, V>>, capacity: nat, key: K, value: V): seq<Entry<K, V>> {
    var all := [Entry(key, value)] + Without(list, key);
    if |all| > capacity then all[..capacity] else all
  }

  ghost function Removed<K>(keys: seq<K>, key: K): seq<K> {
    if keys == [] then []
    else if keys[0] == key then Removed(keys[1..], key)
    else [keys[0]] + Removed(keys[1..], key)
  }

  lemma {:induction false} RemovedMembers<K>(keys: seq<K>, key: K)
    ensures forall k | k in Removed(keys, key) :: k in keys && k != key
    ensures forall k | k in keys && k != key :: k in Removed(keys, key)
    ensures NoDup(keys) ==> NoDup(Removed(keys, key))
    ensures |Removed(keys, key)| <= |keys| && (key in keys ==> |Removed(keys, key)| < |keys|)
    ensures key !in keys ==> Removed(keys, key) == keys
    ensures NoDup(keys) && key in keys ==> |Removed(keys, key)| == |keys| - 1
  {
    if keys != [] {
      RemovedMembers(keys[1..], key);
      assert keys == [keys[0]] + keys[1..];
      if NoDup(keys) && keys[0] != key { PrependDistinct(keys[0], Removed(keys[1..], key)); }
    }
  }

  lemma {:induction false} PrependDistinct<K>(k: K, keys: seq<K>)
    requires NoDup(keys) && k !in keys
    ensures NoDup([k] + keys)
  {
  }

  lemma {:induction false} WithoutKeys<K, V>(list: seq<Entry<K, V>>, key: K)
    ensures Keys(Without(list, key)) == Removed(Keys(list), key)
    ensures forall e :: e in Without(list, key) <==> e in list && e.key != key
  {
    if list != [] {
      WithoutKeys(list[1..], key);
      assert Keys(list)[1..] == Keys(list[1..]);
      assert list == [list[0]] + list[1..];
      if list[0].key != key {
        assert Keys([list[0]] + Without(list[1..], key)) == [list[0].key] + Keys(Without(list[1..], key));
      }
    }
  }

  lemma {:induction false} FindKeys<K, V>(list: seq<Entry<K, V>>, key: K)
    ensures Find(list, key).Some? <==> key in Keys(list)
    ensures Find(list, key).Some? ==> Entry(key, Find(list, key).value) in list
  {
    if list != [] {
      FindKeys(list[1..], key);
      assert Keys(list) == [list[0].key] + Keys(list[1..]);
      assert list == [list[0]] + list[1..];
    }
  }

  /** Looking up moves the key to the front and changes nothing else. */
  lemma {:induction false} TouchKeys<K, V>(list: seq<Entry<K, V>>, key: K)
    ensures Keys(Touch(list, key)) == if key in Keys(list) then [key] + Removed(Keys(list), key) else Keys(list)
    ensures forall e | e in Touch(list, key) :: e in list
  {
    FindKeys(list, key);
    WithoutKeys(list, key);
    if key in Keys(list) {
      var e := Entry(key, Find(list, key).value);
      assert Keys([e] + Without(list, key)) == [key] + Keys(Without(list, key));
    }
  }

  /** Inserting puts the key in front and may drop the last one. */
  lemma {:induction false} PutKeys<K, V>(list: seq<Entry<K, V>>, capacity: nat, key: K, value: V)
    ensures var all := [key] + Removed(Keys(list), key);
            Keys(Put(list, capacity, key, value)) == if |all| > capacity then all[..capacity] else all
    ensures forall e | e in Put(list, capacity, key, value) :: e in list || e == Entry(key, value)
  {
    WithoutKeys(list, key);
    var all := [Entry(key, value)] + Without(list, key);
    assert Keys(all) == [key] + Keys(Without(list, key));
    if |all| > capacity { assert Keys(all[..capacity]) == Keys(all)[..capacity]; }
  }

  lemma {:induction false} RemovedFromRest<K>(front: seq<K>, rest: seq<K>, key: K)
    requires key !in front
    ensures Removed(front + rest, key) == front + Removed(rest, key)
  {
    if front == [] {
      assert front + rest == rest;
    } else {
      RemovedFromRest(front[1..], rest, key);
      assert (front + rest)[1..] == front[1..] + rest;
      assert front == [front[0]] + front[1..];
    }
  }
}
