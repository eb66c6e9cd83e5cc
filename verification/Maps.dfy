/** Facts about finite maps, stated once for all key and value types. */
module Maps {

  lemma IsPut<K, V>(m: map<K, V>, m': map<K, V>, key: K, value: V)
    requires forall k :: k in m' <==> k == key || k in m
    requires forall k :: k in m' ==> m'[k] == if k == key then value else m[k]
    ensures m' == m[key := value]
    ensures |m'| == |m| + if key in m then 0 else 1
  {
  }

  lemma IsRemove<K, V>(m: map<K, V>, m': map<K, V>, key: K)
    requires forall k :: k in m' <==> k != key && k in m
    requires forall k :: k in m' ==> m'[k] == m[k]
    ensures m' == m - {key}
    ensures |m'| == |m| - if key in m then 1 else 0
  {
  }
}
