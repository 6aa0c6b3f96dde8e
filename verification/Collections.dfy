/** Orders and sums of finite sets: what is left of Go's random map iteration. */
module Collections {
  import opened Counters
  import opened Wrappers

  // order lists every key once.
  ghost predicate Ordering<T(!new)>(order: seq<T>, keys: set<T>) {
    && (forall x :: x in order <==> x in keys)
    && forall i, j | 0 <= i < j < |order| :: order[i] != order[j]
  }

  lemma {:induction false} SomeOrdering<T(!new)>(keys: set<T>) returns (order: seq<T>)
    ensures Ordering(order, keys)
  {
    if keys == {} {
      order := [];
    } else {
      var x :| x in keys;
      var rest := SomeOrdering(keys - {x});
      order := rest + [x];
    }
  }

  // The sum of f over a set, as an exact tally.
  ghost function Sum<T(!new)>(keys: set<T>, f: T -> Tally): Tally {
    if keys == {} then ZERO else
    var x :| x in keys;
    f(x).Plus(Sum(keys - {x}, f))
  }

  // Any element may be taken out first.
  lemma {:induction false} SumTakes<T(!new)>(keys: set<T>, f: T -> Tally, x: T)
    requires x in keys
    ensures Sum(keys, f) == f(x).Plus(Sum(keys - {x}, f))
  {
    var y :| y in keys && Sum(keys, f) == f(y).Plus(Sum(keys - {y}, f));
    if x != y {
      SumTakes(keys - {y}, f, x);
      SumTakes(keys - {x}, f, y);
      assert keys - {x} - {y} == keys - {y} - {x};
      PlusSwaps(f(x), f(y), Sum(keys - {x} - {y}, f));
    }
  }

  lemma {:induction false} SumAdds<T(!new)>(keys: set<T>, f: T -> Tally, g: T -> Tally, h: T -> Tally)
    requires forall x | x in keys :: h(x) == f(x).Plus(g(x))
    ensures Sum(keys, h) == Sum(keys, f).Plus(Sum(keys, g))
  {
    if keys != {} {
      var x :| x in keys;
      SumTakes(keys, f, x);
      SumTakes(keys, g, x);
      SumTakes(keys, h, x);
      SumAdds(keys - {x}, f, g, h);
      PlusShuffles(f(x), g(x), Sum(keys - {x}, f), Sum(keys - {x}, g));
    }
  }

  // Elements with nothing to add may be left out.
  lemma {:induction false} SumIgnoresZeros<T(!new)>(keys: set<T>, more: set<T>, f: T -> Tally, g: T -> Tally)
    requires keys <= more
    requires forall x | x in keys :: f(x) == g(x)
    requires forall x | x in more && x !in keys :: g(x) == ZERO
    ensures Sum(keys, f) == Sum(more, g)
  {
    if more != {} {
      var x :| x in more;
      SumTakes(more, g, x);
      if x in keys {
        SumTakes(keys, f, x);
        SumIgnoresZeros(keys - {x}, more - {x}, f, g);
      } else {
        SumIgnoresZeros(keys, more - {x}, f, g);
      }
    }
  }

  // Terms equal modulo 2^64 have sums equal modulo 2^64.
  lemma {:induction false} SumWraps<T(!new)>(keys: set<T>, f: T -> Tally, g: T -> Tally)
    requires forall x | x in keys :: f(x).Wrap() == g(x).Wrap()
    ensures Sum(keys, f).Wrap() == Sum(keys, g).Wrap()
  {
    if keys != {} {
      var x :| x in keys;
      SumTakes(keys, f, x);
      SumTakes(keys, g, x);
      SumWraps(keys - {x}, f, g);
      AddIsExactModulo(f(x), Sum(keys - {x}, f));
      AddIsExactModulo(g(x), Sum(keys - {x}, g));
    }
  }

  lemma {:induction false} SumIsPositive<T(!new)>(keys: set<T>, f: T -> Tally, k: Counter)
    requires forall x | x in keys :: 0 <= f(x).Of(k)
    ensures 0 <= Sum(keys, f).Of(k)
  {
    if keys != {} {
      var x :| x in keys;
      SumTakes(keys, f, x);
      SumIsPositive(keys - {x}, f, k);
      SumsAt(f(x), Sum(keys - {x}, f), k);
    }
  }

  function SumSeq<T>(s: seq<T>, f: T -> Tally): Tally {
    if s == [] then ZERO else SumSeq(s[..|s| - 1], f).Plus(f(s[|s| - 1]))
  }

  function SumOf<T>(s: seq<T>, f: T -> int): int {
    if s == [] then 0 else SumOf(s[..|s| - 1], f) + f(s[|s| - 1])
  }

  lemma {:induction false} SumOfOrdering<T(!new)>(order: seq<T>, keys: set<T>, f: T -> Tally)
    requires Ordering(order, keys)
    ensures SumSeq(order, f) == Sum(keys, f)
  {
    if order == [] {
      assert forall x | x in keys :: x in order;
      assert keys == {};
    } else {
      var front, x := order[..|order| - 1], order[|order| - 1];
      assert order == front + [x];
      SumTakes(keys, f, x);
      SumOfOrdering(front, keys - {x}, f);
      PlusCommutes(f(x), Sum(keys - {x}, f));
    }
  }

  // ---------------------------------------------------------------- folds that ignore order

  function Fold<S, U>(f: (S, U) -> S, start: S, us: seq<U>): S {
    if us == [] then start else f(Fold(f, start, us[..|us| - 1]), us[|us| - 1])
  }

  // Seen through `see`, two steps commute, and a step respects what is seen.
  ghost predicate Commutes<S(!new), U(!new), V>(f: (S, U) -> S, see: S -> V, ok: U -> bool) {
    && (forall s, a, b {:trigger f(f(s, a), b)} | ok(a) && ok(b) :: see(f(f(s, a), b)) == see(f(f(s, b), a)))
    && (forall s, t, a {:trigger f(s, a), f(t, a)} | see(s) == see(t) :: see(f(s, a)) == see(f(t, a)))
  }

  lemma {:induction false} FoldTakesLast<S(!new), U(!new), V>(
      f: (S, U) -> S, start: S, see: S -> V, ok: U -> bool, us: seq<U>, i: nat)
    requires Commutes(f, see, ok) && i < |us| && (forall u | u in us :: ok(u))
    ensures see(Fold(f, start, us)) == see(f(Fold(f, start, us[..i] + us[i + 1..]), us[i]))
  {
    var n := |us| - 1;
    if i == n {
      assert us[..i] + us[i + 1..] == us[..n];
    } else {
      var front, last := us[..n], us[n];
      FoldTakesLast(f, start, see, ok, front, i);
      var rest := front[..i] + front[i + 1..];
      assert us[..i] + us[i + 1..] == rest + [last];
      assert (rest + [last])[..|rest|] == rest;
      SwapLastTwo(f, see, ok, Fold(f, start, front), Fold(f, start, rest), us[i], last);
    }
  }

  lemma SwapLastTwo<S(!new), U(!new), V>(f: (S, U) -> S, see: S -> V, ok: U -> bool, t: S, s: S, a: U, b: U)
    requires Commutes(f, see, ok) && ok(a) && ok(b) && see(t) == see(f(s, a))
    ensures see(f(t, b)) == see(f(f(s, b), a))
  {
    assert see(f(t, b)) == see(f(f(s, a), b));
  }

  // The last element of a list, wherever it stands in a reordering, and what is left of both.
  lemma LastElsewhere<U>(us: seq<U>, vs: seq<U>) returns (i: nat)
    requires us != [] && multiset(us) == multiset(vs)
    ensures i < |vs| && vs[i] == us[|us| - 1]
    ensures multiset(us[..|us| - 1]) == multiset(vs[..i] + vs[i + 1..])
  {
    var last := us[|us| - 1];
    assert last in multiset(us);
    i :| 0 <= i < |vs| && vs[i] == last;
    WithoutOne(us, |us| - 1);
    WithoutOne(vs, i);
    assert us[..|us| - 1] + us[|us| - 1 + 1..] == us[..|us| - 1];
  }

  lemma WithoutOne<U>(us: seq<U>, i: nat)
    requires i < |us|
    ensures multiset(us[..i] + us[i + 1..]) == multiset(us) - multiset{us[i]}
  {
    assert us == us[..i] + [us[i]] + us[i + 1..];
  }

  lemma {:induction false} FoldIgnoresOrder<S(!new), U(!new), V>(
      f: (S, U) -> S, start: S, see: S -> V, ok: U -> bool, us: seq<U>, vs: seq<U>)
    requires Commutes(f, see, ok) && multiset(us) == multiset(vs) && (forall u | u in us :: ok(u))
    ensures see(Fold(f, start, us)) == see(Fold(f, start, vs))
  {
    if us == [] {
      assert |multiset(vs)| == 0;
    } else {
      var i := LastElsewhere(us, vs);
      forall u | u in vs ensures ok(u) { assert u in multiset(us); }
      FoldTakesLast(f, start, see, ok, vs, i);
      FoldIgnoresOrder(f, start, see, ok, us[..|us| - 1], vs[..i] + vs[i + 1..]);
    }
  }

  // ---------------------------------------------------------------- folding by key into a map

  function FoldByKey<K, S, U>(f: (S, U) -> S, start: S, key: U -> K, us: seq<U>): map<K, S> {
    if us == [] then map[] else
    var m, u := FoldByKey(f, start, key, us[..|us| - 1]), us[|us| - 1];
    m[key(u) := f(if key(u) in m then m[key(u)] else start, u)]
  }

  // The elements with the given key, in their order.
  function Having<K(==), U>(key: U -> K, us: seq<U>, k: K): seq<U> {
    if us == [] then [] else
    var front, u := Having(key, us[..|us| - 1], k), us[|us| - 1];
    if key(u) == k then front + [u] else front
  }

  lemma {:induction false} FoldByKeyIsFold<K(!new), S(!new), U(!new)>(f: (S, U) -> S, start: S, key: U -> K,
                                             us: seq<U>, k: K)
    ensures k in FoldByKey(f, start, key, us) <==> Having(key, us, k) != []
    ensures k in FoldByKey(f, start, key, us) ==> FoldByKey(f, start, key, us)[k] == Fold(f, start, Having(key, us, k))
  {
    if us != [] {
      FoldByKeyIsFold(f, start, key, us[..|us| - 1], k);
      var front, u := Having(key, us[..|us| - 1], k), us[|us| - 1];
      assert (front + [u])[..|front|] == front;
    }
  }

  lemma {:induction false} HavingIsFilter<K(!new), U(!new)>(key: U -> K, us: seq<U>, k: K)
    ensures forall u :: multiset(Having(key, us, k))[u] == if key(u) == k then multiset(us)[u] else 0
  {
    if us != [] {
      HavingIsFilter(key, us[..|us| - 1], k);
      assert us == us[..|us| - 1] + [us[|us| - 1]];
    }
  }

  lemma HavingKeepsMembers<K(!new), U(!new)>(key: U -> K, us: seq<U>, k: K, u: U)
    ensures u in Having(key, us, k) <==> u in us && key(u) == k
  {
    HavingIsFilter(key, us, k);
    assert u in Having(key, us, k) <==> u in multiset(Having(key, us, k));
    assert u in us <==> u in multiset(us);
  }

  lemma HavingIgnoresOrder<K(!new), U(!new)>(key: U -> K, us: seq<U>, vs: seq<U>, k: K)
    requires multiset(us) == multiset(vs)
    ensures multiset(Having(key, us, k)) == multiset(Having(key, vs, k))
  {
    HavingIsFilter(key, us, k);
    HavingIsFilter(key, vs, k);
  }

  lemma FoldByKeyIgnoresOrder<K(!new), S(!new), U(!new), V>(
      f: (S, U) -> S, start: S, see: S -> V, ok: U -> bool, key: U -> K, us: seq<U>, vs: seq<U>, k: K)
    requires Commutes(f, see, ok) && multiset(us) == multiset(vs) && (forall u | u in us :: ok(u))
    ensures var a, b := FoldByKey(f, start, key, us), FoldByKey(f, start, key, vs);
      (k in a <==> k in b) && (k in a ==> see(a[k]) == see(b[k]))
  {
    FoldByKeyIsFold(f, start, key, us, k);
    FoldByKeyIsFold(f, start, key, vs, k);
    HavingIgnoresOrder(key, us, vs, k);
    var a, b := Having(key, us, k), Having(key, vs, k);
    assert |multiset(a)| == |a| && |multiset(b)| == |b|;
    forall u | u in a ensures ok(u) { HavingKeepsMembers(key, us, k, u); }
    FoldIgnoresOrder(f, start, see, ok, a, b);
  }

  // ---------------------------------------------------------------- adding maps of numbers

  function At<K(==)>(m: map<K, int>, k: K): int {
    if k in m then m[k] else 0
  }

  function AddMaps<K(==)>(m: map<K, int>, d: map<K, int>): map<K, int> {
    map k | k in m.Keys + d.Keys :: At(m, k) + At(d, k)
  }

  lemma AddMapsCommutes<K(!new)>(m: map<K, int>, a: map<K, int>, b: map<K, int>)
    ensures AddMaps(AddMaps(m, a), b) == AddMaps(AddMaps(m, b), a)
  {
  }

  // m += d, key by key in any order.
  method AddInto<K(==, !new)>(m: map<K, int>, d: map<K, int>) returns (r: map<K, int>)
    ensures r == AddMaps(m, d)
  {
    r := m;
    var todo := d.Keys;
    while todo != {}
      invariant todo <= d.Keys
      invariant forall k :: k in r <==> k in m || (k in d && k !in todo)
      invariant forall k | k in r :: r[k] == At(m, k) + (if k in todo then 0 else At(d, k))
    {
      var k :| k in todo;
      todo := todo - {k};
      r := r[k := At(r, k) + d[k]];
    }
  }

  function Lookup<K(==), V>(m: map<K, V>, k: K): Option<V> {
    if k in m then Some(m[k]) else None
  }

  lemma SameLookups<K(!new), V(!new)>(a: map<K, V>, b: map<K, V>)
    requires forall k :: Lookup(a, k) == Lookup(b, k)
    ensures a == b
  {
    forall k ensures k in a <==> k in b { assert Lookup(a, k) == Lookup(b, k); }
    forall k | k in a ensures a[k] == b[k] { assert Lookup(a, k) == Lookup(b, k); }
  }

  lemma {:induction false} SumSeqAgrees<T, U>(s: seq<T>, f: T -> Tally, t: seq<U>, g: U -> Tally)
    requires |s| == |t| && forall i | 0 <= i < |s| :: f(s[i]) == g(t[i])
    ensures SumSeq(s, f) == SumSeq(t, g)
  {
    if s != [] {
      SumSeqAgrees(s[..|s| - 1], f, t[..|t| - 1], g);
    }
  }

  // f on the elements with the given key, nothing on the others.
  function Only<K(==), U>(key: U -> K, k: K, f: U -> Tally): U -> Tally {
    u => if key(u) == k then f(u) else ZERO
  }

  lemma {:induction false} SumOfHaving<K(!new), U(!new)>(key: U -> K, us: seq<U>, k: K, f: U -> Tally)
    ensures SumSeq(Having(key, us, k), f) == SumSeq(us, Only(key, k, f))
  {
    if us != [] {
      SumOfHaving(key, us[..|us| - 1], k, f);
      var front, u := Having(key, us[..|us| - 1], k), us[|us| - 1];
      assert (front + [u])[..|front|] == front;
    }
  }

  lemma SumSeqAppends<T>(s: seq<T>, x: T, f: T -> Tally)
    ensures SumSeq(s + [x], f) == SumSeq(s, f).Plus(f(x))
  {
    assert (s + [x])[..|s|] == s;
  }

  lemma {:induction false} SumSeqOfZeros<T>(s: seq<T>, f: T -> Tally)
    requires forall i | 0 <= i < |s| :: f(s[i]) == ZERO
    ensures SumSeq(s, f) == ZERO
  {
    if s != [] {
      var front := s[..|s| - 1];
      assert forall i | 0 <= i < |front| :: front[i] == s[i];
      SumSeqOfZeros(front, f);
      PlusZero(f(s[|s| - 1]));
    }
  }

  lemma SumOfZeros<T(!new)>(keys: set<T>, f: T -> Tally)
    requires forall x | x in keys :: f(x) == ZERO
    ensures Sum(keys, f) == ZERO
  {
    SumIgnoresZeros({}, keys, f, f);
  }

  // ---------------------------------------------------------------- partitions

  ghost function SumInt<T(!new)>(keys: set<T>, f: T -> int): int {
    if keys == {} then 0 else
    var x :| x in keys;
    f(x) + SumInt(keys - {x}, f)
  }

  lemma {:induction false} SumIntTakes<T(!new)>(keys: set<T>, f: T -> int, x: T)
    requires x in keys
    ensures SumInt(keys, f) == f(x) + SumInt(keys - {x}, f)
  {
    var y :| y in keys && SumInt(keys, f) == f(y) + SumInt(keys - {y}, f);
    if x != y {
      SumIntTakes(keys - {y}, f, x);
      SumIntTakes(keys - {x}, f, y);
      assert keys - {x} - {y} == keys - {y} - {x};
    }
  }

  lemma {:induction false} SumIntAgrees<T(!new)>(keys: set<T>, f: T -> int, g: T -> int)
    requires forall x | x in keys :: f(x) == g(x)
    ensures SumInt(keys, f) == SumInt(keys, g)
  {
    if keys != {} {
      var x :| x in keys;
      SumIntTakes(keys, f, x);
      SumIntTakes(keys, g, x);
      SumIntAgrees(keys - {x}, f, g);
    }
  }

  // Elements with nothing to add may be left out.
  lemma {:induction false} SumIntIgnoresZeros<T(!new)>(keys: set<T>, more: set<T>, f: T -> int, g: T -> int)
    requires keys <= more
    requires forall x | x in keys :: f(x) == g(x)
    requires forall x | x in more && x !in keys :: g(x) == 0
    ensures SumInt(keys, f) == SumInt(more, g)
  {
    if more != {} {
      var x :| x in more;
      SumIntTakes(more, g, x);
      if x in keys {
        SumIntTakes(keys, f, x);
        SumIntIgnoresZeros(keys - {x}, more - {x}, f, g);
      } else {
        SumIntIgnoresZeros(keys, more - {x}, f, g);
      }
    }
  }

  lemma {:induction false} SumOfInts<T(!new)>(order: seq<T>, keys: set<T>, f: T -> int)
    requires Ordering(order, keys)
    ensures SumOf(order, f) == SumInt(keys, f)
  {
    if order == [] {
      assert forall x | x in keys :: x in order;
      assert keys == {};
    } else {
      var front, x := order[..|order| - 1], order[|order| - 1];
      assert order == front + [x];
      SumIntTakes(keys, f, x);
      SumOfInts(front, keys - {x}, f);
    }
  }

  lemma {:induction false} SumOfSame<T, U>(s: seq<T>, f: T -> int, t: seq<U>, g: U -> int)
    requires |s| == |t| && forall i | 0 <= i < |s| :: f(s[i]) == g(t[i])
    ensures SumOf(s, f) == SumOf(t, g)
  {
    if s != [] {
      SumOfSame(s[..|s| - 1], f, t[..|t| - 1], g);
    }
  }

  lemma {:induction false} SumOfJoined<T>(a: seq<T>, b: seq<T>, f: T -> int)
    ensures SumOf(a + b, f) == SumOf(a, f) + SumOf(b, f)
  {
    if b == [] {
      assert a + b == a;
    } else {
      SumOfJoined(a, b[..|b| - 1], f);
      assert (a + b)[..|a + b| - 1] == a + b[..|b| - 1];
    }
  }

  lemma {:induction false} SumOfOnes<T>(s: seq<T>)
    ensures SumOf(s, (x: T) => 1) == |s|
  {
    if s != [] {
      SumOfOnes(s[..|s| - 1]);
    }
  }

  lemma {:induction false} SumIntOfOnes<T(!new)>(keys: set<T>)
    ensures SumInt(keys, (x: T) => 1) == |keys|
  {
    if keys != {} {
      var x :| x in keys;
      SumIntTakes(keys, (y: T) => 1, x);
      SumIntOfOnes(keys - {x});
    }
  }

  // f on the elements with the given key, nothing on the others.
  function OnlyInts<K(==), U>(key: U -> K, k: K, f: U -> int): U -> int {
    u => if key(u) == k then f(u) else 0
  }

  lemma {:induction false} SumOfHavingInts<K(!new), U(!new)>(key: U -> K, us: seq<U>, k: K, f: U -> int)
    ensures SumOf(Having(key, us, k), f) == SumOf(us, OnlyInts(key, k, f))
  {
    if us != [] {
      SumOfHavingInts(key, us[..|us| - 1], k, f);
      var front, u := Having(key, us[..|us| - 1], k), us[|us| - 1];
      assert (front + [u])[..|front|] == front;
    }
  }

  ghost function KeysOf<K, U>(key: U -> K, us: seq<U>): set<K> {
    set u | u in us :: key(u)
  }

  // Every element has exactly one key.
  lemma {:induction false} HavingPartitions<K(!new), U(!new)>(key: U -> K, us: seq<U>)
    ensures SumInt(KeysOf(key, us), k => |Having(key, us, k)|) == |us|
  {
    if us == [] {
      assert KeysOf(key, us) == {};
    } else {
      var front, k := us[..|us| - 1], key(us[|us| - 1]);
      assert us == front + [us[|us| - 1]];
      HavingPartitions(key, front);
      var f, g := x => |Having(key, front, x)|, x => |Having(key, us, x)|;
      var before, after := KeysOf(key, front), KeysOf(key, us);
      assert after == before + {k};
      SumIntTakes(after, g, k);
      assert after - {k} == before - {k};
      SumIntAgrees(before - {k}, f, g);
      if k in before {
        SumIntTakes(before, f, k);
      } else {
        assert before - {k} == before;
        if Having(key, front, k) != [] { HavingKeepsMembers(key, front, k, Having(key, front, k)[0]); }
      }
    }
  }

  // ---------------------------------------------------------------- reordered lists

  lemma {:induction false} OrderingsAgree<T(!new)>(a: seq<T>, b: seq<T>, keys: set<T>)
    requires Ordering(a, keys) && Ordering(b, keys)
    ensures multiset(a) == multiset(b)
  {
    OrderingCounts(a, keys);
    OrderingCounts(b, keys);
  }

  lemma {:induction false} OrderingCounts<T(!new)>(a: seq<T>, keys: set<T>)
    requires Ordering(a, keys)
    ensures multiset(a) == multiset(keys)
  {
    if a == [] {
      assert forall x | x in keys :: x in a;
      assert keys == {};
    } else {
      var front, x := a[..|a| - 1], a[|a| - 1];
      assert a == front + [x];
      OrderingCounts(front, keys - {x});
    }
  }

  // Folding over a list is folding over the list it was made from.
  lemma {:induction false} FoldOfMapped<S(!new), U, T>(f: (S, U) -> S, start: S, us: seq<U>, g: (S, T) -> S, ts: seq<T>)
    requires |us| == |ts| && forall s, i | 0 <= i < |us| :: f(s, us[i]) == g(s, ts[i])
    ensures Fold(f, start, us) == Fold(g, start, ts)
  {
    if us != [] {
      FoldOfMapped(f, start, us[..|us| - 1], g, ts[..|ts| - 1]);
    }
  }

  lemma {:induction false} FoldByKeyOfMapped<K, S(!new), U, T>(
      f: (S, U) -> S, start: S, key: U -> K, us: seq<U>, g: (S, T) -> S, key': T -> K, ts: seq<T>)
    requires |us| == |ts| && forall i | 0 <= i < |us| :: key(us[i]) == key'(ts[i])
    requires forall s, i | 0 <= i < |us| :: f(s, us[i]) == g(s, ts[i])
    ensures FoldByKey(f, start, key, us) == FoldByKey(g, start, key', ts)
  {
    if us != [] {
      var n := |us| - 1;
      FoldByKeyOfMapped(f, start, key, us[..n], g, key', ts[..n]);
      var m := FoldByKey(f, start, key, us[..n]);
      var s := if key(us[n]) in m then m[key(us[n])] else start;
      assert key(us[n]) == key'(ts[n]);
      assert forall i | 0 <= i < |us| :: f(s, us[i]) == g(s, ts[i]);
    }
  }

  ghost function IndexIn<T>(s: seq<T>, x: T): (i: nat)
    requires x in s
    ensures i < |s| && s[i] == x
  {
    var i :| 0 <= i < |s| && s[i] == x;
    i
  }

  // ---------------------------------------------------------------- building a map from entries

  function PutEntry<K, V>(m: map<K, V>, entry: Option<(K, V)>): map<K, V> {
    match entry case Some((k, v)) => m[k := v] case None => m
  }

  // Later entries replace earlier ones; elements without an entry are skipped.
  function PutAll<K, V, U>(entry: U -> Option<(K, V)>, us: seq<U>): map<K, V> {
    if us == [] then map[] else PutEntry(PutAll(entry, us[..|us| - 1]), entry(us[|us| - 1]))
  }

  lemma {:induction false} PutAllJoins<K(!new), V(!new), U>(entry: U -> Option<(K, V)>, a: seq<U>, b: seq<U>)
    ensures PutAll(entry, a + b) == PutAll(entry, a) + PutAll(entry, b)
  {
    if b == [] {
      assert a + b == a;
    } else {
      PutAllJoins(entry, a, b[..|b| - 1]);
      assert (a + b)[..|a + b| - 1] == a + b[..|b| - 1];
    }
  }

  // An element without an entry may stand anywhere.
  lemma PutAllSkips<K(!new), V(!new), U>(entry: U -> Option<(K, V)>, a: seq<U>, u: U, b: seq<U>)
    requires entry(u).None?
    ensures PutAll(entry, a + [u] + b) == PutAll(entry, a + b)
  {
    PutAllJoins(entry, a + [u], b);
    PutAllJoins(entry, a, b);
    assert (a + [u])[..|a|] == a;
  }

  ghost predicate DistinctEntries<K, V, U>(entry: U -> Option<(K, V)>, us: seq<U>) {
    forall i, j | 0 <= i < j < |us| && entry(us[i]).Some? && entry(us[j]).Some? ::
      entry(us[i]).value.0 != entry(us[j]).value.0
  }

  ghost predicate HasEntry<K, V, U>(entry: U -> Option<(K, V)>, us: seq<U>, k: K, v: V) {
    exists i :: 0 <= i < |us| && entry(us[i]) == Some((k, v))
  }

  lemma {:induction false} PutAllMeans<K(!new), V(!new), U>(entry: U -> Option<(K, V)>, us: seq<U>, k: K, v: V)
    requires DistinctEntries(entry, us)
    ensures Lookup(PutAll(entry, us), k) == Some(v) <==> HasEntry(entry, us, k, v)
  {
    if us != [] {
      var front, n := us[..|us| - 1], |us| - 1;
      assert forall i | 0 <= i < n :: front[i] == us[i];
      PutAllMeans(entry, front, k, v);
      if entry(us[n]).Some? && entry(us[n]).value.0 == k {
        forall i | 0 <= i < n ensures entry(us[i]) != Some((k, v)) {
          assert entry(us[i]).Some? ==> entry(us[i]).value.0 != k;
        }
        assert entry(us[n]) == Some((k, v)) <==> entry(us[n]).value.1 == v;
      } else if i :| 0 <= i < |us| && entry(us[i]) == Some((k, v)) {
        assert entry(front[i]) == Some((k, v));
      }
    }
  }

  lemma HasEntryMoves<K, V, U>(entry: U -> Option<(K, V)>, us: seq<U>, vs: seq<U>, k: K, v: V)
    requires multiset(us) == multiset(vs) && HasEntry(entry, us, k, v)
    ensures HasEntry(entry, vs, k, v)
  {
    var i :| 0 <= i < |us| && entry(us[i]) == Some((k, v));
    assert us[i] in multiset(vs);
    var j :| 0 <= j < |vs| && vs[j] == us[i];
  }

  lemma SameEntry<K(!new), V(!new), U>(entry: U -> Option<(K, V)>, us: seq<U>, vs: seq<U>, k: K)
    requires multiset(us) == multiset(vs) && DistinctEntries(entry, us) && DistinctEntries(entry, vs)
    ensures Lookup(PutAll(entry, us), k).Some? ==> Lookup(PutAll(entry, vs), k) == Lookup(PutAll(entry, us), k)
  {
    var found := Lookup(PutAll(entry, us), k);
    if found.Some? {
      PutAllMeans(entry, us, k, found.value);
      HasEntryMoves(entry, us, vs, k, found.value);
      PutAllMeans(entry, vs, k, found.value);
    }
  }

  // Elements that set distinct keys may come in any order.
  lemma PutAllIgnoresOrder<K(!new), V(!new), U>(entry: U -> Option<(K, V)>, us: seq<U>, vs: seq<U>)
    requires multiset(us) == multiset(vs) && DistinctEntries(entry, us) && DistinctEntries(entry, vs)
    ensures PutAll(entry, us) == PutAll(entry, vs)
  {
    forall k ensures Lookup(PutAll(entry, us), k) == Lookup(PutAll(entry, vs), k) {
      SameEntry(entry, us, vs, k);
      SameEntry(entry, vs, us, k);
    }
    SameLookups(PutAll(entry, us), PutAll(entry, vs));
  }

  // Element i has an entry for k, and no later element has.
  ghost predicate IsLastEntry<K, V, U>(entry: U -> Option<(K, V)>, us: seq<U>, i: nat, k: K, v: V) {
    && i < |us| && entry(us[i]) == Some((k, v))
    && forall j | i < j < |us| && entry(us[j]).Some? :: entry(us[j]).value.0 != k
  }

  // Whatever the entries are, the last one for a key is the one that is found.
  lemma {:induction false} LastEntryWins<K(!new), V(!new), U>(entry: U -> Option<(K, V)>, us: seq<U>, k: K, v: V)
    ensures Lookup(PutAll(entry, us), k) == Some(v) <==> exists i: nat :: IsLastEntry(entry, us, i, k, v)
  {
    if us != [] {
      var front, n := us[..|us| - 1], |us| - 1;
      LastEntryWins(entry, front, k, v);
      assert forall i | 0 <= i < n :: front[i] == us[i];
      if entry(us[n]).Some? && entry(us[n]).value.0 == k {
        assert IsLastEntry(entry, us, n, k, entry(us[n]).value.1);
      } else {
        forall i: nat ensures IsLastEntry(entry, us, i, k, v) <==> IsLastEntry(entry, front, i, k, v) {}
      }
    }
  }

  // ---------------------------------------------------------------- an index by key

  function IndexBy<K, V, U>(key: U -> K, val: U -> V, us: seq<U>): map<K, V> {
    if us == [] then map[] else IndexBy(key, val, us[..|us| - 1])[key(us[|us| - 1]) := val(us[|us| - 1])]
  }

  ghost predicate IsLastOf<K, U>(key: U -> K, us: seq<U>, i: nat) {
    i < |us| && forall j | i < j < |us| :: key(us[j]) != key(us[i])
  }

  // The index holds, for each key, the value of the last element with that key.
  lemma {:induction false} IndexHoldsLast<K(!new), V(!new), U>(key: U -> K, val: U -> V, us: seq<U>, k: K)
    ensures k in IndexBy(key, val, us) <==> exists i: nat :: IsLastOf(key, us, i) && key(us[i]) == k
    ensures forall i: nat | IsLastOf(key, us, i) && key(us[i]) == k ::
              k in IndexBy(key, val, us) && IndexBy(key, val, us)[k] == val(us[i])
  {
    if us != [] {
      var front, n := us[..|us| - 1], |us| - 1;
      IndexHoldsLast(key, val, front, k);
      assert IsLastOf(key, us, n);
      if key(us[n]) != k {
        forall i: nat
          ensures IsLastOf(key, us, i) && key(us[i]) == k <==> IsLastOf(key, front, i) && key(front[i]) == k
        {
          assert forall j | 0 <= j < n :: front[j] == us[j];
        }
      }
    }
  }

  lemma OverridesAssociate<K(!new), V(!new)>(a: map<K, V>, b: map<K, V>, c: map<K, V>)
    ensures a + b + c == a + (b + c)
  {
  }

  lemma {:induction false} IndexByJoins<K(!new), V(!new), U>(key: U -> K, val: U -> V, a: seq<U>, b: seq<U>)
    ensures IndexBy(key, val, a + b) == IndexBy(key, val, a) + IndexBy(key, val, b)
  {
    if b == [] {
      assert a + b == a;
    } else {
      IndexByJoins(key, val, a, b[..|b| - 1]);
      assert (a + b)[..|a + b| - 1] == a + b[..|b| - 1];
    }
  }

  // The elements of a set, in whatever order they come.
  method ListSet<T(==, !new)>(keys: set<T>) returns (order: seq<T>)
    ensures Ordering(order, keys)
  {
    order := [];
    var todo := keys;
    while todo != {}
      invariant todo <= keys && Ordering(order, keys - todo)
    {
      var x :| x in todo;
      todo := todo - {x};
      order := order + [x];
    }
  }

  lemma OrderingWithFirst<T(!new)>(x: T, rest: seq<T>, keys: set<T>)
    requires x in keys && Ordering(rest, keys - {x})
    ensures Ordering([x] + rest, keys)
  {
    assert ([x] + rest)[1..] == rest;
  }

  lemma PutAllAppends<K(!new), V(!new), U>(entry: U -> Option<(K, V)>, us: seq<U>, u: U)
    ensures PutAll(entry, us + [u]) == PutEntry(PutAll(entry, us), entry(u))
  {
    assert (us + [u])[..|us|] == us;
  }
}
