/** What extracting by key and searching by value do to a finite map. */
module Maps {

  lemma KeyWithValue<K, V>(m: map<K, V>, v: V) returns (k: K)
    requires v in m.Values
    ensures k in m && m[k] == v
  {
    k :| k in m.Keys && m[k] == v;
  }

  ghost predicate Injective<K(!new), V>(m: map<K, V>)
  {
    forall j, k :: j in m && k in m && m[j] == m[k] ==> j == k
  }

  /** A two-way map stays one exactly when the new right key is really new. */
  lemma InsertInjective<K(!new), V>(m: map<K, V>, k: K, v: V)
    requires k !in m
    ensures Injective(m[k := v]) <==> Injective(m) && v !in m.Values
    ensures m[k := v].Values == m.Values + {v}
  {
    var p := m[k := v];
    forall w | w in m.Values + {v} ensures w in p.Values {
      if w == v {
        assert k in p && p[k] == w;
      } else {
        var j := KeyWithValue(m, w);
        assert j in p && p[j] == w;
      }
    }
    forall w | w in p.Values ensures w in m.Values + {v} {
      var j := KeyWithValue(p, w);
    }
    if v in m.Values {
      var j := KeyWithValue(m, v);
      assert j in p && p[j] == p[k];
    }
    if Injective(p) {
      forall i, j | i in m && j in m && m[i] == m[j] ensures i == j {
        assert p[i] == p[j];
      }
    }
  }

  lemma ExtractInjective<K(!new), V>(m: map<K, V>, k: K)
    requires Injective(m) && k in m
    ensures Injective(m - {k})
    ensures (m - {k}).Values == m.Values - {m[k]}
  {
    var p := m - {k};
    forall w | w in m.Values - {m[k]} ensures w in p.Values {
      var j := KeyWithValue(m, w);
      assert j in p && p[j] == w;
    }
    forall w | w in p.Values ensures w in m.Values - {m[k]} {
      var j := KeyWithValue(p, w);
      assert j in m && m[j] == w;
    }
  }

  lemma ValuesShrink<K, V>(m: map<K, V>, k: K)
    ensures (m - {k}).Values <= m.Values
  {
    forall v | v in (m - {k}).Values ensures v in m.Values {
      var j := KeyWithValue(m - {k}, v);
      assert m[j] == v;
    }
  }
}
