// Exact sums over finite maps (SQL's TOTAL and COUNT without rounding).

module Sums {
  ghost function Pick<K>(s: set<K>): (k: K)
    requires s != {}
    ensures k in s
  {
    var k :| k in s; k
  }

  ghost function Sum(m: map<string, int>): int
    decreases |m|
  {
    if m.Keys == {} then 0
    else
      var k := Pick(m.Keys);
      assert k in m.Keys;
      assert (m - {k}).Keys == m.Keys - {k};
      m[k] + Sum(m - {k})
  }

  lemma {:induction false} SumRemove(m: map<string, int>, k: string)
    requires k in m
    ensures Sum(m) == m[k] + Sum(m - {k})
    decreases |m|
  {
    var k0 := Pick(m.Keys);
    assert (m - {k0}).Keys == m.Keys - {k0};
    if k0 != k {
      SumRemove(m - {k0}, k);
      assert (m - {k}).Keys == m.Keys - {k};
      SumRemove(m - {k}, k0);
      assert (m - {k0}) - {k} == (m - {k}) - {k0};
    }
  }

  // Writing one entry changes the sum by the difference of its values.
  lemma SumUpdate(m: map<string, int>, k: string, v: int)
    ensures Sum(m[k := v]) == Sum(m) - (if k in m then m[k] else 0) + v
  {
    hide Sum;
    SumRemove(m[k := v], k);
    if k in m {
      SumRemove(m, k);
      assert m[k := v] - {k} == m - {k};
    } else {
      assert m[k := v] - {k} == m;
    }
  }

  lemma {:induction false} SumBounds(m: map<string, int>)
    requires forall k :: k in m ==> m[k] >= 0
    ensures Sum(m) >= 0
    ensures forall k :: k in m ==> m[k] <= Sum(m)
    decreases |m|
  {
    if m.Keys != {} {
      var k0 := Pick(m.Keys);
      assert (m - {k0}).Keys == m.Keys - {k0};
      SumBounds(m - {k0});
      forall k | k in m ensures m[k] <= Sum(m) {
        if k != k0 { assert (m - {k0})[k] == m[k]; }
      }
    }
  }

  // Dropping entries that weigh nothing leaves the sum alone.
  lemma DropOne(m: map<string, int>, gone: set<string>, k: string)
    requires k in m && k in gone
    ensures (m - {k}) - gone == m - gone && (m - {k}).Keys == m.Keys - {k} && |m - {k}| < |m|
  {
    assert (m - {k}).Keys == m.Keys - {k};
    assert |m - {k}| == |(m - {k}).Keys| && |m| == |m.Keys|;
  }

  lemma {:induction false} SumDropZeros(m: map<string, int>, gone: set<string>)
    requires forall k :: k in m && k in gone ==> m[k] == 0
    ensures Sum(m - gone) == Sum(m)
    decreases |m|
  {
    hide Sum;
    if m.Keys * gone == {} {
      assert forall k :: k in m ==> k !in gone by { assert forall k :: k in m && k in gone ==> k in m.Keys * gone; }
      assert m - gone == m;
    } else {
      var k := Pick(m.Keys * gone);
      DropOne(m, gone, k);
      SumRemove(m, k);
      SumDropZeros(m - {k}, gone);
    }
  }

  // The part of a map that a loop has still to visit.
  ghost function Part(m: map<string, int>, ks: set<string>): map<string, int> { map k | k in m && k in ks :: m[k] }

  lemma PartAll(m: map<string, int>)
    ensures Part(m, m.Keys) == m
  {}

  lemma PartNone(m: map<string, int>)
    ensures Sum(Part(m, {})) == 0
  {
    assert Part(m, {}).Keys == {};
  }

  lemma PartStep(m: map<string, int>, ks: set<string>, k: string)
    requires k in m && k in ks
    ensures Sum(Part(m, ks)) == m[k] + Sum(Part(m, ks - {k}))
  {
    SumRemove(Part(m, ks), k);
    assert Part(m, ks) - {k} == Part(m, ks - {k});
  }
}
