/** Sums over finite sets. */
module Sums {

  ghost function Sum<T(!new)>(keys: set<T>, m: map<T, int>): int
    requires keys <= m.Keys
  {
    if keys == {} then 0 else var x :| x in keys; m[x] + Sum(keys - {x}, m)
  }

  lemma {:induction false} SumRemove<T(!new)>(keys: set<T>, m: map<T, int>, t: T)
    requires keys <= m.Keys && t in keys
    ensures Sum(keys, m) == m[t] + Sum(keys - {t}, m)
  {
    var x :| x in keys && Sum(keys, m) == m[x] + Sum(keys - {x}, m);
    if x != t {
      SumRemove(keys - {x}, m, t);
      SumRemove(keys - {t}, m, x);
      assert keys - {x} - {t} == keys - {t} - {x};
    }
  }

  lemma {:induction false} SumUpdate<T(!new)>(keys: set<T>, m: map<T, int>, t: T, v: int)
    requires keys <= m.Keys
    ensures Sum(keys, m[t := v]) == Sum(keys, m) + (if t in keys then v - m[t] else 0)
    decreases keys
  {
    if keys != {} {
      var x :| x in keys;
      SumRemove(keys, m, x);
      SumRemove(keys, m[t := v], x);
      SumUpdate(keys - {x}, m, t, v);
    }
  }

  lemma {:induction false} SumNonNegative<T(!new)>(keys: set<T>, m: map<T, int>)
    requires keys <= m.Keys && forall t <- keys :: m[t] >= 0
    ensures Sum(keys, m) >= 0
    ensures Sum(keys, m) == 0 <==> forall t <- keys :: m[t] == 0
  {
    if keys != {} {
      var x :| x in keys;
      SumRemove(keys, m, x);
      SumNonNegative(keys - {x}, m);
    }
  }

  lemma {:induction false} SumSame<T(!new)>(keys: set<T>, m: map<T, int>, m': map<T, int>)
    requires keys <= m.Keys && keys <= m'.Keys && forall k <- keys :: m[k] == m'[k]
    ensures Sum(keys, m) == Sum(keys, m')
  {
    if keys != {} {
      var x :| x in keys;
      SumRemove(keys, m, x);
      SumRemove(keys, m', x);
      SumSame(keys - {x}, m, m');
    }
  }

  lemma SumShift<T(!new)>(keys: set<T>, m: map<T, int>, m': map<T, int>, t: T)
    requires keys <= m.Keys && keys <= m'.Keys && t in keys && forall k <- keys :: k != t ==> m[k] == m'[k]
    ensures Sum(keys, m') == Sum(keys, m) + m'[t] - m[t]
  {
    SumRemove(keys, m, t);
    SumRemove(keys, m', t);
    SumSame(keys - {t}, m, m');
  }

  lemma {:induction false} SumDisjoint<T(!new)>(a: set<T>, b: set<T>, m: map<T, int>)
    requires a <= m.Keys && b <= m.Keys && a !! b
    ensures Sum(a + b, m) == Sum(a, m) + Sum(b, m)
  {
    if b == {} {
      assert a + b == a;
    } else {
      var x :| x in b;
      SumRemove(b, m, x);
      SumRemove(a + b, m, x);
      assert a + b - {x} == a + (b - {x});
      SumDisjoint(a, b - {x}, m);
    }
  }

  lemma {:induction false} SumDrop<T(!new)>(keys: set<T>, m: map<T, int>, m': map<T, int>, s: set<T>)
    requires keys <= m.Keys && keys <= m'.Keys && forall k <- keys :: m'[k] == m[k] - (if k in s then 1 else 0)
    ensures Sum(keys, m') == Sum(keys, m) - |keys * s|
  {
    if keys == {} {
      assert keys * s == {};
    } else {
      var x :| x in keys;
      SumRemove(keys, m, x);
      SumRemove(keys, m', x);
      SumDrop(keys - {x}, m, m', s);
      if x in s {
        assert keys * s == (keys - {x}) * s + {x};
      } else {
        assert keys * s == (keys - {x}) * s;
      }
    }
  }
}
