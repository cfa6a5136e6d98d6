/** Facts shared by the node table and the group table: both store every
    entry under the identifier the entry itself carries. */
module Keyed {
  /** Every entry of `m` is stored under the key that `key` reads off its value. */
  ghost predicate KeyedBy<K, V>(m: map<K, V>, key: V -> K)
  {
    forall k :: k in m ==> key(m[k]) == k
  }

  /** In a table keyed by its values' own identifiers no two keys share a value,
      so the collection of values has exactly one element per key. */
  lemma {:induction false} ValuesOfKeyed<K, V>(m: map<K, V>, key: V -> K)
    requires KeyedBy(m, key)
    ensures |m.Values| == |m|
    decreases |m|
  {
    if m != map[] {
      var k :| k in m;
      var rest := m - {k};
      assert rest.Keys == m.Keys - {k};
      assert KeyedBy(rest, key);
      ValuesOfKeyed(rest, key);
      assert m.Values == rest.Values + {m[k]} by {
        forall v | v in m.Values ensures v in rest.Values + {m[k]} {
          var j :| j in m && m[j] == v;
          if j != k { assert rest[j] == v; }
        }
        forall v | v in rest.Values ensures v in m.Values {
          var j :| j in rest && rest[j] == v;
          assert m[j] == v;
        }
      }
      assert m[k] !in rest.Values;
    }
  }
}
