// `domNodeRegistry`: a JS Map from element id to what the renderer needs to
// tear the element down. A Map iterates in insertion order, so it is kept as
// an association list: `set` on a present key updates the value in place,
// on a new key appends, and `delete` drops the pair.
module Registry {
  import opened Wrappers

  /** The element itself is the one whose id is the key. */
  datatype Entry = Entry(exitAnimationId: Option<string>, destroyId: Option<nat>)

  type Reg = seq<(string, Entry)>

  function Keys(r: Reg): (ks: seq<string>)
    ensures |ks| == |r| && forall i :: 0 <= i < |r| ==> ks[i] == r[i].0
  {
    if r == [] then [] else [r[0].0] + Keys(r[1..])
  }

  predicate Has(r: Reg, k: string)
  {
    exists i :: 0 <= i < |r| && r[i].0 == k
  }

  /** Each key occurs once. */
  predicate Distinct(r: Reg)
  {
    forall i, j :: 0 <= i < j < |r| ==> r[i].0 != r[j].0
  }

  /** `registry.get(k)`. */
  function Get(r: Reg, k: string): (e: Option<Entry>)
    ensures e.Some? <==> Has(r, k)
    ensures e.Some? ==> exists i :: 0 <= i < |r| && r[i] == (k, e.value)
  {
    if r == [] then None
    else if r[0].0 == k then Some(r[0].1)
    else
      var e := Get(r[1..], k);
      assert e.Some? ==> exists i :: 1 <= i < |r| && r[i] == (k, e.value) by {
        if e.Some? {
          var i :| 0 <= i < |r| - 1 && r[1..][i] == (k, e.value);
          assert r[i + 1] == (k, e.value);
        }
      }
      assert Has(r, k) ==> r[0].0 == k || Has(r[1..], k) by {
        if Has(r, k) && r[0].0 != k {
          var i :| 0 <= i < |r| && r[i].0 == k;
          assert r[1..][i - 1].0 == k;
        }
      }
      e
  }

  /** `registry.set(k, v)`. */
  function Set(r: Reg, k: string, v: Entry): (r': Reg)
  {
    if r == [] then [(k, v)]
    else if r[0].0 == k then [(k, v)] + r[1..]
    else [r[0]] + Set(r[1..], k, v)
  }

  /** `registry.delete(k)`. */
  function Delete(r: Reg, k: string): (r': Reg)
    ensures |r'| <= |r|
    ensures forall i :: 0 <= i < |r'| ==> r'[i].0 != k
    ensures forall i :: 0 <= i < |r'| ==> r'[i] in r
  {
    if r == [] then []
    else if r[0].0 == k then Delete(r[1..], k)
    else [r[0]] + Delete(r[1..], k)
  }

  /** After `set`, the key maps to the new value, every other key keeps its value, and keys keep their order. */
  lemma {:induction false} SetThenGet(r: Reg, k: string, v: Entry, k': string)
    ensures Get(Set(r, k, v), k') == if k' == k then Some(v) else Get(r, k')
  {
    if r != [] && r[0].0 != k {
      SetThenGet(r[1..], k, v, k');
    }
  }

  /** `set` on a present key keeps the key order; on a new key it appends. */
  lemma {:induction false} SetKeys(r: Reg, k: string, v: Entry)
    ensures Has(r, k) ==> Keys(Set(r, k, v)) == Keys(r)
    ensures !Has(r, k) ==> Keys(Set(r, k, v)) == Keys(r) + [k]
  {
    if r != [] && r[0].0 != k {
      SetKeys(r[1..], k, v);
      HasTail(r, k);
    }
  }

  lemma HasTail(r: Reg, k: string)
    requires r != [] && r[0].0 != k
    ensures Has(r, k) <==> Has(r[1..], k)
  {
    if Has(r, k) {
      var i :| 0 <= i < |r| && r[i].0 == k;
      assert r[1..][i - 1].0 == k;
    }
    if Has(r[1..], k) {
      var i :| 0 <= i < |r| - 1 && r[1..][i].0 == k;
      assert r[i + 1].0 == k;
    }
  }

  /** `set` keeps the keys distinct. */
  lemma {:induction false} SetDistinct(r: Reg, k: string, v: Entry)
    requires Distinct(r)
    ensures Distinct(Set(r, k, v))
  {
    SetKeys(r, k, v);
    var r' := Set(r, k, v);
    forall i, j | 0 <= i < j < |r'| ensures r'[i].0 != r'[j].0 {
      assert Keys(r')[i] == r'[i].0 && Keys(r')[j] == r'[j].0;
      if !Has(r, k) && j == |r| {
        assert Keys(r')[i] == Keys(r)[i] == r[i].0;
      } else {
        assert Keys(r')[i] == r[i].0 && Keys(r')[j] == r[j].0;
      }
    }
  }

  /** After `delete`, the key is absent and every other key keeps its value. */
  lemma {:induction false} DeleteThenGet(r: Reg, k: string, k': string)
    ensures Get(Delete(r, k), k') == if k' == k then None else Get(r, k')
  {
    if r != [] {
      DeleteThenGet(r[1..], k, k');
    }
  }

  lemma SetHas(r: Reg, k: string, v: Entry, k': string)
    ensures Has(Set(r, k, v), k') <==> Has(r, k') || k' == k
  {
    SetThenGet(r, k, v, k');
  }

  lemma DeleteHas(r: Reg, k: string, k': string)
    ensures Has(Delete(r, k), k') <==> Has(r, k') && k' != k
  {
    DeleteThenGet(r, k, k');
  }

  /** With distinct keys, `delete` drops exactly the one pair of a present key and keeps the keys distinct. */
  lemma {:induction false} DeleteDistinct(r: Reg, k: string)
    requires Distinct(r)
    ensures |Delete(r, k)| == if Has(r, k) then |r| - 1 else |r|
    ensures Distinct(Delete(r, k))
  {
    if r != [] {
      assert Distinct(r[1..]) by {
        forall i, j | 0 <= i < j < |r| - 1 ensures r[1..][i].0 != r[1..][j].0 {
          assert r[i + 1].0 != r[j + 1].0;
        }
      }
      DeleteDistinct(r[1..], k);
      if r[0].0 == k {
        assert !Has(r[1..], k) by {
          forall i | 0 <= i < |r| - 1 ensures r[1..][i].0 != k {
            assert r[0].0 != r[i + 1].0;
          }
        }
      } else {
        HasTail(r, k);
        var d := Delete(r[1..], k);
        forall i | 0 <= i < |d| ensures d[i].0 != r[0].0 {
          assert d[i] in r[1..];
          var j :| 0 <= j < |r| - 1 && r[1..][j] == d[i];
          assert r[j + 1] == d[i];
        }
      }
    }
  }
}
