/** Small helpers shared by the models. */
module Collections {

  datatype Option<T> = None | Some(value: T)

  lemma TimesMonotone(a: int, b: int, c: int)
    requires a <= b && 0 <= c
    ensures a * c <= b * c
  {
  }

  /** Some element of a set, as a loop over a Go map visits them: in no particular order. */
  method Pick<T>(s: set<T>) returns (x: T)
    requires s != {}
    ensures x in s
  {
    x :| x in s;
  }

  /** Taking keys away adds no values. */
  lemma FewerValues<K, V>(m: map<K, V>, less: map<K, V>)
    requires forall k :: k in less ==> k in m && m[k] == less[k]
    ensures less.Values <= m.Values
  {
    forall v | v in less.Values
      ensures v in m.Values
    {
      var k := KeyOf(less, v);
      assert m[k] == v;
    }
  }

  lemma KeyOf<K, V>(m: map<K, V>, v: V) returns (k: K)
    requires v in m.Values
    ensures k in m && m[k] == v
  {
    k :| k in m && m[k] == v;
  }

  lemma HeadsDiffer<T>(a: T, x: seq<T>, b: T, y: seq<T>)
    ensures [a] + x == [b] + y <==> a == b && x == y
  {
    assert ([a] + x)[0] == a && ([b] + y)[0] == b;
    assert ([a] + x)[1..] == x && ([b] + y)[1..] == y;
  }
}
