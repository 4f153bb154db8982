/** Values shared by every component: optional and failing results, and folds over finite maps. */
module Prelude {

  datatype Option<+T> = None | Some(value: T)

  datatype Result<+T, +E> = Ok(value: T) | Err(error: E) {
    predicate IsFailure() {
      Err?
    }

    function PropagateFailure<U>(): Result<U, E>
      requires Err?
    {
      Err(error)
    }

    function Extract(): T
      requires Ok?
    {
      value
    }
  }

  newtype byte = x: int | 0 <= x < 0x100

  type Bytes = seq<byte>

  function Max(a: int, b: int): (m: int)
  {
    if a < b then b else a
  }

  /** The sum of the values of a finite map. */
  ghost function Total<K>(m: map<K, int>): int
    decreases |m|
  {
    if m == map[] then 0
    else
      var k :| k in m;
      assert |m - {k}| < |m| by { assert m.Keys == (m - {k}).Keys + {k}; }
      m[k] + Total(m - {k})
  }

  /** The sum does not depend on which key is taken out first. */
  lemma {:induction false} TotalRemove<K>(m: map<K, int>, k: K)
    requires k in m
    ensures Total(m) == m[k] + Total(m - {k})
    decreases |m|
  {
    var c :| c in m && Total(m) == m[c] + Total(m - {c});
    assert m.Keys == (m - {c}).Keys + {c};
    assert m.Keys == (m - {k}).Keys + {k};
    if c != k {
      TotalRemove(m - {c}, k);
      TotalRemove(m - {k}, c);
      assert m - {c} - {k} == m - {k} - {c};
    }
  }

  lemma TotalInsert<K>(m: map<K, int>, k: K, v: int)
    requires k !in m
    ensures Total(m[k := v]) == Total(m) + v
  {
    TotalRemove(m[k := v], k);
    assert m[k := v] - {k} == m;
  }

  /** Adding to one value adds the same amount to the sum. */
  lemma TotalUpdate<K>(m: map<K, int>, k: K, v: int)
    requires k in m
    ensures Total(m[k := v]) == Total(m) - m[k] + v
  {
    TotalRemove(m, k);
    TotalRemove(m[k := v], k);
    assert m[k := v] - {k} == m - {k};
  }

  /** A pointwise bound on the values bounds the sums. */
  lemma {:induction false} TotalMonotone<K>(m: map<K, int>, n: map<K, int>)
    requires m.Keys == n.Keys
    requires forall k :: k in m ==> m[k] <= n[k]
    ensures Total(m) <= Total(n)
    decreases |m|
  {
    if m != map[] {
      var k :| k in m;
      TotalRemove(m, k);
      TotalRemove(n, k);
      assert m.Keys == (m - {k}).Keys + {k};
      TotalMonotone(m - {k}, n - {k});
    } else {
      assert n == map[];
    }
  }

  lemma {:induction false} TotalZero<K>(m: map<K, int>)
    requires forall k :: k in m ==> m[k] == 0
    ensures Total(m) == 0
    decreases |m|
  {
    if m != map[] {
      var k :| k in m;
      TotalRemove(m, k);
      assert m.Keys == (m - {k}).Keys + {k};
      TotalZero(m - {k});
    }
  }

  /** Sums subtract value by value. */
  lemma {:induction false} TotalMinus<K>(m: map<K, int>, n: map<K, int>, d: map<K, int>)
    requires m.Keys == n.Keys == d.Keys && forall k :: k in m ==> d[k] == m[k] - n[k]
    ensures Total(d) == Total(m) - Total(n)
    decreases |m|
  {
    if m == map[] {
      assert n == map[] && d == map[];
    } else {
      var k :| k in m;
      TotalRemove(m, k);
      TotalRemove(n, k);
      TotalRemove(d, k);
      assert m.Keys == (m - {k}).Keys + {k};
      TotalMinus(m - {k}, n - {k}, d - {k});
    }
  }

  lemma Deducted<K>(m: map<K, int>, n: map<K, int>) returns (d: map<K, int>)
    requires m.Keys == n.Keys
    ensures d.Keys == m.Keys && (forall k :: k in m ==> d[k] == m[k] - n[k]) && Total(d) == Total(m) - Total(n)
  {
    hide Total;
    d := map k | k in m :: m[k] - n[k];
    TotalMinus(m, n, d);
  }

  lemma TotalNonnegative<K>(m: map<K, int>)
    requires forall k :: k in m ==> 0 <= m[k]
    ensures 0 <= Total(m)
  {
    hide Total;
    var zero := map k | k in m :: 0;
    TotalZero(zero);
    TotalMonotone(zero, m);
  }

  /** If every part of one whole stays within that of another after a deduction, so do the wholes. */
  lemma TotalsAfterDeduction<K>(a: map<K, int>, da: map<K, int>, b: map<K, int>, db: map<K, int>)
    requires a.Keys == da.Keys && a.Keys == b.Keys && b.Keys == db.Keys
    requires forall k :: k in a ==> 0 <= a[k] - da[k] <= b[k] - db[k]
    ensures 0 <= Total(a) - Total(da) <= Total(b) - Total(db)
  {
    hide Total;
    var ra := Deducted(a, da);
    var rb := Deducted(b, db);
    TotalMonotone(ra, rb);
    TotalNonnegative(ra);
  }

  /** The `n` integers from `lo` on. */
  function Interval(lo: int, n: nat): (r: set<int>)
    ensures forall i :: i in r <==> lo <= i < lo + n
    ensures |r| == n
  {
    if n == 0 then {} else Interval(lo, n - 1) + {lo + n - 1}
  }

  lemma SubsetSize<T>(a: set<T>, b: set<T>)
    requires a <= b
    ensures |a| <= |b| && (|a| == |b| ==> a == b)
  {
    assert |b - a| == |b| - |a|;
  }

  function Lookup<K, V>(m: map<K, V>, k: K): Option<V> {
    if k in m then Some(m[k]) else None
  }

  /** The elements of a sequence that satisfy a predicate, in order. */
  function Filter<T(!new)>(s: seq<T>, p: T -> bool): (r: seq<T>)
    ensures forall x :: x in r <==> x in s && p(x)
  {
    if s == [] then []
    else
      var n := |s| - 1;
      assert s == s[..n] + [s[n]];
      Filter(s[..n], p) + if p(s[n]) then [s[n]] else []
  }

  ghost predicate Sole<T(!new)>(s: seq<T>, p: T -> bool, i: int) {
    0 <= i < |s| && p(s[i]) && forall j :: 0 <= j < |s| && j != i ==> !p(s[j])
  }

  lemma {:induction false} FilterSingle<T(!new)>(s: seq<T>, p: T -> bool)
    ensures |Filter(s, p)| == 1 <==> exists i :: Sole(s, p, i)
    ensures Filter(s, p) == [] <==> forall i :: 0 <= i < |s| ==> !p(s[i])
    ensures forall i :: Sole(s, p, i) ==> Filter(s, p) == [s[i]]
    decreases |s|
  {
    if s != [] {
      var n := |s| - 1;
      var init := s[..n];
      FilterSingle(init, p);
      assert forall i :: 0 <= i < n ==> init[i] == s[i];
      forall i ensures Sole(s, p, i) <==>
        || (0 <= i < n && Sole(init, p, i) && !p(s[n]))
        || (i == n && p(s[n]) && forall j :: 0 <= j < n ==> !p(init[j]))
      {
      }
      var f := Filter(init, p);
      assert f + [] == f;
      if p(s[n]) && f == [] {
        assert Sole(s, p, n);
      } else if !p(s[n]) && |f| == 1 {
        var i :| Sole(init, p, i);
        assert Sole(s, p, i);
      }
    }
  }

  // ----- keyed records -----

  /** What a line comes to: it is refused, ignored, or sets a key. */
  datatype Entry<K, V> = Bad | Noise | Field(key: K, value: V)

  /** Reading lines one after another into a map, where no key may be set twice. */
  ghost function Gather<L, K, V>(lines: seq<L>, f: L -> Entry<K, V>, m: map<K, V>): Option<map<K, V>>
    decreases |lines|
  {
    if lines == [] then Some(m)
    else match f(lines[0])
      case Bad => None
      case Noise => Gather(lines[1..], f, m)
      case Field(key, value) => if key in m then None else Gather(lines[1..], f, m[key := value])
  }

  ghost predicate Gatherable<L, K, V>(lines: seq<L>, f: L -> Entry<K, V>, m: map<K, V>) {
    && (forall k :: 0 <= k < |lines| ==> !f(lines[k]).Bad? && (f(lines[k]).Field? ==> f(lines[k]).key !in m))
    && (forall j, k :: 0 <= j < k < |lines| && f(lines[j]).Field? && f(lines[k]).Field? ==>
          f(lines[j]).key != f(lines[k]).key)
  }

  ghost predicate Sets<L, K, V>(lines: seq<L>, f: L -> Entry<K, V>, key: K, value: V) {
    exists k :: 0 <= k < |lines| && f(lines[k]) == Field(key, value)
  }

  ghost predicate Maps<K, V>(m: map<K, V>, key: K, value: V) {
    key in m && m[key] == value
  }

  /** The old entries and the set ones, and nothing else. */
  ghost predicate Gathers<L, K(!new), V(!new)>(lines: seq<L>, f: L -> Entry<K, V>, m: map<K, V>, r: map<K, V>) {
    forall key, value :: Maps(r, key, value) <==> Maps(m, key, value) || Sets(lines, f, key, value)
  }

  lemma SetsStep<L, K, V>(lines: seq<L>, f: L -> Entry<K, V>, key: K, value: V)
    requires lines != []
    ensures Sets(lines, f, key, value) <==> f(lines[0]) == Field(key, value) || Sets(lines[1..], f, key, value)
  {
    var rest := lines[1..];
    if k :| 0 <= k < |lines| && f(lines[k]) == Field(key, value) {
      if k > 0 { assert f(rest[k - 1]) == Field(key, value); }
    }
    if k :| 0 <= k < |rest| && f(rest[k]) == Field(key, value) { assert f(lines[k + 1]) == Field(key, value); }
  }

  lemma GatherableStep<L, K, V>(lines: seq<L>, f: L -> Entry<K, V>, m: map<K, V>)
    requires lines != []
    ensures Gatherable(lines, f, m) <==>
      match f(lines[0])
      case Bad => false
      case Noise => Gatherable(lines[1..], f, m)
      case Field(key, value) => key !in m && Gatherable(lines[1..], f, m[key := value])
  {
    var rest := lines[1..];
    assert forall k :: 0 <= k < |rest| ==> rest[k] == lines[k + 1];
    assert forall k :: 0 < k < |lines| ==> lines[k] == rest[k - 1];
    if f(lines[0]).Field? && Gatherable(lines, f, m) {
      var key := f(lines[0]).key;
      forall k | 0 <= k < |rest| && f(rest[k]).Field? ensures f(rest[k]).key != key { assert lines[k + 1] == rest[k]; }
    }
  }

  lemma {:induction false} GatherExact<L, K(!new), V(!new)>(lines: seq<L>, f: L -> Entry<K, V>, m: map<K, V>)
    ensures Gather(lines, f, m).Some? <==> Gatherable(lines, f, m)
    ensures Gather(lines, f, m).Some? ==> Gathers(lines, f, m, Gather(lines, f, m).value)
    decreases |lines|
  {
    hide Gatherable, Sets, Maps;
    if lines == [] {
      NothingGathered(lines, f, m);
    } else {
      GatherableStep(lines, f, m);
      forall key, value ensures
        Sets(lines, f, key, value) <==> f(lines[0]) == Field(key, value) || Sets(lines[1..], f, key, value)
      {
        SetsStep(lines, f, key, value);
      }
      match f(lines[0])
      case Bad =>
      case Noise => GatherExact(lines[1..], f, m);
      case Field(key, value) =>
        if key !in m {
          GatherExact(lines[1..], f, m[key := value]);
          SetFirst(m, key, value);
        }
    }
  }

  lemma SameMap<K(!new), V(!new)>(m: map<K, V>, n: map<K, V>)
    requires forall key, value :: Maps(m, key, value) <==> Maps(n, key, value)
    ensures m == n
  {
    forall key ensures (key in m <==> key in n) && (key in m ==> m[key] == n[key]) {
      if key in m { assert Maps(m, key, m[key]); }
      if key in n { assert Maps(n, key, n[key]); }
    }
  }

  lemma SetFirst<K(!new), V(!new)>(m: map<K, V>, key: K, value: V)
    requires key !in m
    ensures forall a, v :: Maps(m[key := value], a, v) <==> Maps(m, a, v) || (a, v) == (key, value)
  {
  }

  lemma NothingGathered<L, K(!new), V(!new)>(lines: seq<L>, f: L -> Entry<K, V>, m: map<K, V>)
    requires lines == []
    ensures Gatherable(lines, f, m) && forall key, value :: !Sets(lines, f, key, value)
  {
  }

  lemma SomeElement<T>(s: set<T>) returns (x: T)
    requires s != {}
    ensures x in s
  {
    x :| x in s;
  }

  lemma MissingElement<T>(a: set<T>, b: set<T>) returns (x: T)
    requires a <= b && a != b
    ensures x in b && x !in a
  {
    x :| x in b && x !in a;
  }

  lemma SomeKey<K, V>(m: map<K, V>) returns (k: K)
    requires m != map[]
    ensures k in m
  {
    k :| k in m;
  }

  lemma KeyFor<K, V>(m: map<K, V>, v: V) returns (k: K)
    requires v in m.Values
    ensures k in m && m[k] == v
  {
    k :| k in m && m[k] == v;
  }

  /** A selection grows by the new element exactly when that element is selected. */
  lemma Grow<T(!new)>(done: set<T>, x: T, f: T -> bool, a: set<T>, b: set<T>)
    requires x !in done
    requires forall y :: y in a <==> y in done && f(y)
    requires forall y :: y in b <==> y in done + {x} && f(y)
    ensures b == a + if f(x) then {x} else {}
    ensures |b| == |a| + if f(x) then 1 else 0
  {
    assert b == a + if f(x) then {x} else {};
  }
}
