/** src/hash_map/hash_map.c: a fixed number of buckets, each a chain of items. */
module HashMaps {
  import opened Bytes
  import opened Options

  /** A C string without its terminator. */
  type Key = seq<byte>

  datatype Item<V> = Item(key: Key, value: V)

  ghost predicate InChain<V>(chain: seq<Item<V>>, key: Key) {
    exists i :: 0 <= i < |chain| && chain[i].key == key
  }

  /** The items of a chain carry distinct keys and the values that `m` gives them. */
  ghost predicate ChainOf<V>(chain: seq<Item<V>>, m: map<Key, V>) {
    && (forall i :: 0 <= i < |chain| ==> chain[i].key in m && chain[i].value == m[chain[i].key])
    && (forall i, j :: 0 <= i < j < |chain| ==> chain[i].key != chain[j].key)
  }

  /** The table's chains together hold exactly the entries of `m`, each in the bucket that `index` picks. */
  ghost predicate Refines<V>(chains: seq<seq<Item<V>>>, index: Key -> nat, m: map<Key, V>) {
    && (forall b :: 0 <= b < |chains| ==> ChainOf(chains[b], m))
    && (forall b, k :: 0 <= b < |chains| && InChain(chains[b], k) ==> index(k) == b)
    && (forall k :: k in m ==> index(k) < |chains| && InChain(chains[index(k)], k))
  }

  lemma ChainSnoc<V>(chain: seq<Item<V>>, m: map<Key, V>, item: Item<V>)
    requires ChainOf(chain, m) && item.key !in m
    ensures ChainOf(chain, m[item.key := item.value])
    ensures ChainOf(chain + [item], m[item.key := item.value])
    ensures forall k :: InChain(chain + [item], k) <==> InChain(chain, k) || k == item.key
  {
    var chain' := chain + [item];
    assert chain'[|chain|] == item;
    forall k
      ensures InChain(chain', k) <==> InChain(chain, k) || k == item.key
    {
      if InChain(chain, k) {
        var i :| 0 <= i < |chain| && chain[i].key == k;
        assert chain'[i].key == k;
      }
    }
  }

  lemma AppendRefines<V>(chains: seq<seq<Item<V>>>, index: Key -> nat, m: map<Key, V>, item: Item<V>)
    requires Refines(chains, index, m) && item.key !in m && index(item.key) < |chains|
    ensures var b := index(item.key);
            Refines(chains[b := chains[b] + [item]], index, m[item.key := item.value])
  {
    var b := index(item.key);
    var chains', m' := chains[b := chains[b] + [item]], m[item.key := item.value];
    ChainSnoc(chains[b], m, item);
    forall c | 0 <= c < |chains|
      ensures ChainOf(chains'[c], m')
    {
      ChainSnoc(chains[c], m, item);
    }
  }

  lemma ChainCut<V>(chain: seq<Item<V>>, m: map<Key, V>, i: nat)
    requires ChainOf(chain, m) && i < |chain|
    ensures ChainOf(chain[..i] + chain[i + 1..], m - {chain[i].key})
    ensures forall k :: InChain(chain[..i] + chain[i + 1..], k) <==> InChain(chain, k) && k != chain[i].key
  {
    var chain' := chain[..i] + chain[i + 1..];
    assert forall j :: 0 <= j < |chain'| ==> chain'[j] == chain[if j < i then j else j + 1];
    forall k
      ensures InChain(chain', k) <==> InChain(chain, k) && k != chain[i].key
    {
      if InChain(chain, k) && k != chain[i].key {
        var j :| 0 <= j < |chain| && chain[j].key == k;
        assert chain'[if j < i then j else j - 1].key == k;
      }
    }
  }

  lemma UnlinkRefines<V>(chains: seq<seq<Item<V>>>, index: Key -> nat, m: map<Key, V>, b: nat, i: nat)
    requires Refines(chains, index, m) && b < |chains| && i < |chains[b]|
    ensures Refines(chains[b := chains[b][..i] + chains[b][i + 1..]], index, m - {chains[b][i].key})
  {
    var key := chains[b][i].key;
    assert InChain(chains[b], key);
    ChainCut(chains[b], m, i);
    forall c | 0 <= c < |chains| && c != b
      ensures ChainOf(chains[c], m - {key})
    {
      assert forall j :: 0 <= j < |chains[c]| ==> InChain(chains[c], chains[c][j].key);
    }
  }

  lemma NothingLinked<V>(chains: seq<seq<Item<V>>>, index: Key -> nat, m: map<Key, V>)
    requires Refines(chains, index, m) && forall b :: 0 <= b < |chains| ==> chains[b] == []
    ensures m == map[]
  {
    forall k
      ensures k !in m
    {
      assert index(k) < |chains| ==> chains[index(k)] == [];
    }
  }

  lemma PutBack<V>(m: map<Key, V>, key: Key)
    requires key in m
    ensures (m - {key})[key := m[key]] == m
  {
  }

  lemma PutInstead<V>(m: map<Key, V>, key: Key, value: V)
    ensures (m - {key})[key := value] == m[key := value]
  {
  }

  /** `values` are the values of the distinct `keys` of `m`, and `rest` is what `m` holds under other keys. */
  ghost predicate Drained<V>(m: map<Key, V>, rest: map<Key, V>, keys: seq<Key>, values: seq<V>) {
    && |values| == |keys|
    && (forall i :: 0 <= i < |keys| ==> keys[i] in m && values[i] == m[keys[i]])
    && (forall i, j :: 0 <= i < j < |keys| ==> keys[i] != keys[j])
    && rest == m - set k | k in keys
  }

  lemma DrainedNone<V>(m: map<Key, V>)
    ensures Drained(m, m, [], [])
  {
    assert m - (set k | k in []) == m;
  }

  lemma DrainedMore<V>(m: map<Key, V>, rest: map<Key, V>, keys: seq<Key>, values: seq<V>, key: Key)
    requires Drained(m, rest, keys, values) && key in rest
    ensures Drained(m, rest - {key}, keys + [key], values + [rest[key]])
    ensures |rest - {key}| < |rest|
  {
    KeysMore(keys, key);
    assert rest - {key} == m - ((set k | k in keys) + {key});
    SmallerMap(rest, key);
  }

  lemma KeysMore(keys: seq<Key>, key: Key)
    ensures (set k | k in keys + [key]) == (set k | k in keys) + {key}
  {
  }

  lemma SmallerMap<V>(m: map<Key, V>, key: Key)
    requires key in m
    ensures |m - {key}| < |m|
  {
    assert (m - {key}).Keys == m.Keys - {key};
    assert |m.Keys - {key}| < |m.Keys|;
  }

  /** A map with nothing left had all of its keys taken out. */
  lemma DrainedDry<V>(m: map<Key, V>, keys: seq<Key>, values: seq<V>)
    requires Drained(m, map[], keys, values)
    ensures forall k :: k in m <==> k in keys
    ensures |keys| == |m|
  {
    var taken := set k | k in keys;
    assert (m - taken).Keys == m.Keys - taken;
    forall k | k in m
      ensures k in taken
    {
      assert k !in m - taken;
    }
    assert taken == m.Keys;
    DistinctCount(keys);
  }

  lemma {:induction false} DistinctCount(keys: seq<Key>)
    requires forall i, j :: 0 <= i < j < |keys| ==> keys[i] != keys[j]
    ensures |set k | k in keys| == |keys|
  {
    if keys != [] {
      var front, last := keys[..|keys| - 1], keys[|keys| - 1];
      DistinctCount(front);
      assert (set k | k in keys) == (set k | k in front) + {last};
    }
  }

  /** For every hash function and every positive number of buckets, the table refines the finite map `contents`. */
  class HashMap<V> {
    const hash: Key -> nat
    const buckets: array<seq<Item<V>>>
    ghost var contents: map<Key, V>

    function Index(key: Key): (b: nat)
      requires buckets.Length > 0
      ensures b < buckets.Length
    {
      hash(key) % buckets.Length
    }

    ghost predicate Valid()
      reads this, buckets
    {
      buckets.Length > 0 && Refines(buckets[..], Indexing(), contents)
    }

    ghost function Indexing(): Key -> nat {
      k => if buckets.Length > 0 then Index(k) else 0
    }

    constructor (hash: Key -> nat, maxBuckets: nat)
      requires maxBuckets > 0
      ensures Valid() && contents == map[] && fresh(buckets)
    {
      this.hash := hash;
      buckets := new seq<Item<V>>[maxBuckets](_ => []);
      contents := map[];
    }

    /** The walk that hashmap_get and hashmap_has_key share: the position of the key in its chain, or the chain's
        length. */
    method Find(key: Key) returns (i: nat)
      requires Valid()
      ensures i <= |buckets[Index(key)]|
      ensures i < |buckets[Index(key)]| <==> key in contents
      ensures i < |buckets[Index(key)]| ==> buckets[Index(key)][i] == Item(key, contents[key])
    {
      var chain := buckets[Index(key)];
      assert chain == buckets[..][Indexing()(key)];
      i := 0;
      while i < |chain|
        invariant i <= |chain|
        invariant forall j :: 0 <= j < i ==> chain[j].key != key
      {
        if chain[i].key == key {
          return;
        }
        i := i + 1;
      }
      assert !InChain(chain, key);
    }

    method HasKey(key: Key) returns (found: bool)
      requires Valid()
      ensures found <==> key in contents
    {
      var i := Find(key);
      found := i < |buckets[Index(key)]|;
    }

    /** hashmap_get removes the item that it returns. */
    method Get(key: Key) returns (value: Option<V>)
      requires Valid()
      modifies this, buckets
      ensures Valid()
      ensures value == if key in old(contents) then Some(old(contents)[key]) else None
      ensures contents == old(contents) - {key}
    {
      var i := Find(key);
      var b := Index(key);
      if i < |buckets[b]| {
        value := Some(buckets[b][i].value);
        Unlink(b, i);
      } else {
        value := None;
        assert contents == old(contents) - {key};
      }
    }

    /** Takes the item at position `i` out of chain `b`. */
    method Unlink(b: nat, i: nat)
      requires Valid() && b < buckets.Length && i < |buckets[b]|
      modifies this, buckets
      ensures Valid()
      ensures contents == old(contents) - {old(buckets[b][i].key)}
      ensures buckets[..] == old(buckets[..])[b := old(buckets[b])[..i] + old(buckets[b])[i + 1..]]
    {
      ghost var chains := buckets[..];
      UnlinkRefines(chains, Indexing(), contents, b, i);
      contents := contents - {buckets[b][i].key};
      buckets[b] := buckets[b][..i] + buckets[b][i + 1..];
      assert buckets[..] == chains[b := chains[b][..i] + chains[b][i + 1..]];
    }

    /** hashmap_set refuses a key that is present and otherwise appends to the chain. */
    method Set(key: Key, value: V) returns (ok: bool)
      requires Valid()
      modifies this, buckets
      ensures Valid()
      ensures ok <==> key !in old(contents)
      ensures contents == if ok then old(contents)[key := value] else old(contents)
    {
      var present := HasKey(key);
      if present {
        return false;
      }
      var b := Index(key);
      ghost var chains := buckets[..];
      AppendRefines(chains, Indexing(), contents, Item(key, value));
      buckets[b] := buckets[b] + [Item(key, value)];
      contents := contents[key := value];
      assert buckets[..] == chains[b := chains[b] + [Item(key, value)]];
      ok := true;
    }

    /** The walk over the peers (src/torrent/torrent.c): taking a value out and putting it back restores the map. */
    method Peek(key: Key) returns (value: V)
      requires Valid() && key in contents
      modifies this, buckets
      ensures Valid() && contents == old(contents) && value == contents[key]
    {
      var got := Get(key);
      value := got.value;
      PutBack(old(contents), key);
      var ok := Set(key, value);
    }

    /** hashmap_empty: the last item of the first non-empty chain, or None when every chain is empty. */
    method TakeAny() returns (value: Option<V>, ghost key: Key)
      requires Valid()
      modifies this, buckets
      ensures Valid()
      ensures value == None <==> old(contents) == map[]
      ensures value == None ==> contents == map[]
      ensures value.Some? ==>
              key in old(contents) && value.value == old(contents)[key] && contents == old(contents) - {key}
    {
      key := [];
      for b := 0 to buckets.Length
        invariant forall c :: 0 <= c < b ==> buckets[c] == []
        invariant Valid() && contents == old(contents)
      {
        if buckets[b] != [] {
          var i := |buckets[b]| - 1;
          value, key := Some(buckets[b][i].value), buckets[b][i].key;
          assert buckets[b] == buckets[..][b];
          Unlink(b, i);
          return;
        }
      }
      value := None;
      NothingLinked(buckets[..], Indexing(), contents);
    }

    /** The clean-up loop of torrent_data_free and torrent_free: repeated hashmap_empty hands back every
        stored value exactly once and then reports that nothing is left. */
    method Drain() returns (values: seq<V>, ghost keys: seq<Key>)
      requires Valid()
      modifies this, buckets
      ensures Valid() && contents == map[]
      ensures Drained(old(contents), map[], keys, values)
    {
      values, keys := [], [];
      ghost var m := contents;
      DrainedNone(m);
      while true
        invariant Valid() && Drained(m, contents, keys, values)
        decreases |contents|
      {
        ghost var before := contents;
        var value, key := TakeAny();
        if value == None {
          break;
        }
        DrainedMore(m, before, keys, values, key);
        values, keys := values + [value.value], keys + [key];
      }
    }
  }
}
