/** Secondary indexes: a map from key to a nonempty set of members. */
module Buckets {

  function Bucket<K, V>(index: map<K, set<V>>, k: K): set<V> {
    if k in index then index[k] else {}
  }

  ghost predicate NoEmptyBucket<K, V>(index: map<K, set<V>>) {
    forall k :: k in index ==> index[k] != {}
  }

  function AddTo<K, V>(index: map<K, set<V>>, k: K, v: V): map<K, set<V>> {
    index[k := Bucket(index, k) + {v}]
  }

  /** The bucket goes when its last member does. */
  function RemoveFrom<K, V>(index: map<K, set<V>>, k: K, v: V): map<K, set<V>> {
    if k !in index then index
    else if index[k] - {v} == {} then index - {k}
    else index[k := index[k] - {v}]
  }

  lemma AddToBucket<K, V>(index: map<K, set<V>>, k: K, v: V)
    requires NoEmptyBucket(index)
    ensures NoEmptyBucket(AddTo(index, k, v))
    ensures forall j {:trigger Bucket(AddTo(index, k, v), j)} ::
              Bucket(AddTo(index, k, v), j) == if j == k then Bucket(index, k) + {v} else Bucket(index, j)
  {
    assert v in Bucket(index, k) + {v};
  }

  lemma RemoveFromBucket<K, V>(index: map<K, set<V>>, k: K, v: V)
    requires NoEmptyBucket(index)
    ensures NoEmptyBucket(RemoveFrom(index, k, v))
    ensures forall j {:trigger Bucket(RemoveFrom(index, k, v), j)} ::
              Bucket(RemoveFrom(index, k, v), j) == if j == k then Bucket(index, k) - {v} else Bucket(index, j)
  {}
}
