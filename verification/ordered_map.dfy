/**
  Insertion-ordered string-keyed maps, the behaviour of a JavaScript `Map`
  as the time logger uses it: `has`, `get`, `set` (which keeps the
  position of an existing key and appends a new one), iteration in
  insertion order, and the numeric-suffix search that picks a free key.
 */
module OrderedMap {
  import opened Decimal

  /** An ordered association list; `DistinctKeys` is its invariant. */
  type Assoc<V> = seq<(string, V)>

  function Keys<V>(m: Assoc<V>): seq<string>
  {
    seq(|m|, i requires 0 <= i < |m| => m[i].0)
  }

  function Values<V>(m: Assoc<V>): seq<V>
  {
    seq(|m|, i requires 0 <= i < |m| => m[i].1)
  }

  predicate DistinctKeys<V>(m: Assoc<V>)
  {
    forall i, j :: 0 <= i < j < |m| ==> m[i].0 != m[j].0
  }

  /** Position of `k`: the first entry carrying it. */
  function IndexOf<V>(m: Assoc<V>, k: string): (i: nat)
    requires k in Keys(m)
    ensures i < |m| && m[i].0 == k
    ensures forall j :: 0 <= j < i ==> m[j].0 != k
  {
    if m[0].0 == k then 0
    else
      assert Keys(m) == [m[0].0] + Keys(m[1..]);
      1 + IndexOf(m[1..], k)
  }

  /** The first entry carrying `k` is the one `IndexOf` finds. */
  lemma IndexOfIs<V>(m: Assoc<V>, k: string, i: nat)
    requires i < |m| && m[i].0 == k
    requires forall j :: 0 <= j < i ==> m[j].0 != k
    ensures k in Keys(m) && IndexOf(m, k) == i
  {
    assert Keys(m)[i] == k;
  }

  /** `Map.get` on a key that is present. */
  function Get<V>(m: Assoc<V>, k: string): V
    requires k in Keys(m)
  {
    m[IndexOf(m, k)].1
  }

  /**
    `Map.set`: an existing key keeps its position and takes the new value,
    a new key is appended at the end.
   */
  function Set<V>(m: Assoc<V>, k: string, v: V): (r: Assoc<V>)
    ensures k in Keys(m) ==>
              && |r| == |m|
              && r[IndexOf(m, k)] == (k, v)
              && forall j :: 0 <= j < |m| && j != IndexOf(m, k) ==> r[j] == m[j]
    ensures k !in Keys(m) ==> r == m + [(k, v)]
    ensures Keys(r) == if k in Keys(m) then Keys(m) else Keys(m) + [k]
    ensures k in Keys(r) && Get(r, k) == v
    ensures DistinctKeys(m) ==> DistinctKeys(r)
  {
    if k in Keys(m) then
      var i := IndexOf(m, k);
      var r := m[i := (k, v)];
      assert Keys(r) == Keys(m);
      assert forall j :: 0 <= j < i ==> r[j].0 == m[j].0 != k;
      IndexOfIs(r, k, i);
      r
    else
      var r := m + [(k, v)];
      assert Keys(r) == Keys(m) + [k];
      assert forall j :: 0 <= j < |m| ==> r[j].0 == Keys(m)[j] != k;
      IndexOfIs(r, k, |m|);
      r
  }

  /** Setting one key leaves the value of every other key as it was. */
  lemma GetSetOther<V>(m: Assoc<V>, k: string, v: V, k': string)
    requires k' != k && k' in Keys(m)
    ensures k' in Keys(Set(m, k, v))
    ensures Get(Set(m, k, v), k') == Get(m, k')
  {
    var r := Set(m, k, v);
    var j := IndexOf(m, k');
    assert r[j] == m[j];
    assert forall l :: 0 <= l < j ==> r[l].0 != k';
  }

  /** Every other key keeps its value under `Set`. */
  lemma GetSetOthers<V>(m: Assoc<V>, k: string, v: V)
    ensures forall a :: a != k && a in Keys(m) ==> a in Keys(Set(m, k, v)) && Get(Set(m, k, v), a) == Get(m, a)
  {
    forall a | a != k && a in Keys(m)
      ensures a in Keys(Set(m, k, v)) && Get(Set(m, k, v), a) == Get(m, a)
    {
      GetSetOther(m, k, v, a);
    }
  }

  /** With distinct keys, the entry at position `i` is found by its key. */
  lemma GetAt<V>(m: Assoc<V>, i: nat)
    requires DistinctKeys(m) && i < |m|
    ensures m[i].0 in Keys(m)
    ensures IndexOf(m, m[i].0) == i
    ensures Get(m, m[i].0) == m[i].1
  {
    assert Keys(m)[i] == m[i].0;
  }

  // ---------------------------------------------------------------------
  // Numeric-suffix disambiguation
  // ---------------------------------------------------------------------

  /** The values `f(1), ..., f(n)`. */
  ghost function Image<T>(f: nat -> T, n: nat): set<T>
  {
    set j | 1 <= j <= n :: f(j)
  }

  ghost function KeySet<V>(m: Assoc<V>): set<string>
  {
    set i | 0 <= i < |m| :: m[i].0
  }

  /** An injective `f` takes `n` different values on `1 .. n`. */
  lemma {:induction false} ImageCard<T>(f: nat -> T, n: nat)
    requires forall a, b :: f(a) == f(b) ==> a == b
    ensures |Image(f, n)| == n
  {
    if n > 0 {
      ImageCard(f, n - 1);
      var prev := Image(f, n - 1);
      assert Image(f, n) == prev + {f(n)} by {
        forall x | x in Image(f, n)
          ensures x in prev + {f(n)}
        {
          var j :| 1 <= j <= n && x == f(j);
          if j < n {
            assert x in prev;
          }
        }
      }
      assert forall j :: 1 <= j < n ==> f(j) != f(n);
    }
  }

  lemma {:induction false} KeySetCard<V>(m: Assoc<V>)
    ensures |KeySet(m)| <= |m|
  {
    if |m| > 0 {
      var init := m[..|m| - 1];
      KeySetCard(init);
      assert KeySet(m) == KeySet(init) + {m[|m| - 1].0};
    }
  }

  lemma SubsetCard<T>(a: set<T>, b: set<T>)
    requires a <= b
    ensures |a| <= |b|
  {
    assert b == a + (b - a);
    assert a * (b - a) == {};
  }

  /**
    Pigeonhole: if `name1 .. namen` are all keys of `m`, then `m` has at
    least `n` entries.  This is why the suffix search stops.
   */
  lemma TakenSuffixesBound<V>(m: Assoc<V>, name: string, n: nat)
    requires forall j :: 1 <= j <= n ==> name + NatToString(j) in Keys(m)
    ensures n <= |m|
  {
    var suffixed := (j: nat) => name + NatToString(j);
    forall a, b | suffixed(a) == suffixed(b)
      ensures a == b
    {
      SuffixInjective(name, a, b);
    }
    assert Image(suffixed, n) <= KeySet(m) by {
      forall s | s in Image(suffixed, n)
        ensures s in KeySet(m)
      {
        var j :| 1 <= j <= n && s == suffixed(j);
        var i :| 0 <= i < |m| && Keys(m)[i] == s;
        assert m[i].0 == s;
      }
    }
    ImageCard(suffixed, n);
    KeySetCard(m);
    SubsetCard(Image(suffixed, n), KeySet(m));
  }

  /**
    The loop `let i = 1; while (m.has(name + i)) i++;` started at `i`,
    knowing that every smaller suffix is already taken.
   */
  function FreeSuffixFrom<V>(m: Assoc<V>, name: string, i: nat): (r: nat)
    requires i >= 1
    requires forall j :: 1 <= j < i ==> name + NatToString(j) in Keys(m)
    ensures i <= r
    ensures name + NatToString(r) !in Keys(m)
    ensures forall j :: 1 <= j < r ==> name + NatToString(j) in Keys(m)
    decreases |m| + 1 - i
  {
    TakenSuffixesBound(m, name, i - 1);
    if name + NatToString(i) in Keys(m) then
      TakenSuffixesBound(m, name, i);
      FreeSuffixFrom(m, name, i + 1)
    else
      i
  }

  /** The smallest `i >= 1` such that `name + i` is not a key of `m`. */
  function FreeSuffix<V>(m: Assoc<V>, name: string): (i: nat)
    ensures 1 <= i <= |m| + 1
    ensures name + NatToString(i) !in Keys(m)
    ensures forall j :: 1 <= j < i ==> name + NatToString(j) in Keys(m)
  {
    var i := FreeSuffixFrom(m, name, 1);
    TakenSuffixesBound(m, name, i - 1);
    i
  }

  /** `FreeSuffix` is characterised by its contract: the smallest free suffix is unique. */
  lemma FreeSuffixIs<V>(m: Assoc<V>, name: string, i: nat)
    requires i >= 1 && name + NatToString(i) !in Keys(m)
    requires forall j :: 1 <= j < i ==> name + NatToString(j) in Keys(m)
    ensures FreeSuffix(m, name) == i
  {
  }

  /** The key a non-merging insertion of `name` uses when `name` is taken. */
  function Disambiguate<V>(m: Assoc<V>, name: string): (k: string)
    ensures k !in Keys(m)
  {
    name + NatToString(FreeSuffix(m, name))
  }

  // ---------------------------------------------------------------------
  // Sums
  // ---------------------------------------------------------------------

  function Sum(xs: seq<int>): int
  {
    if |xs| == 0 then 0 else xs[0] + Sum(xs[1..])
  }

  lemma {:induction false} SumConcat(a: seq<int>, b: seq<int>)
    ensures Sum(a + b) == Sum(a) + Sum(b)
  {
    if |a| > 0 {
      assert (a + b)[1..] == a[1..] + b;
      SumConcat(a[1..], b);
    } else {
      assert a + b == b;
    }
  }

  /** Replacing one element changes the sum by the difference. */
  lemma SumUpdate(xs: seq<int>, i: nat, x: int)
    requires i < |xs|
    ensures Sum(xs[i := x]) == Sum(xs) - xs[i] + x
  {
    assert xs == xs[..i] + [xs[i]] + xs[i + 1..];
    assert xs[i := x] == xs[..i] + [x] + xs[i + 1..];
    SumConcat(xs[..i] + [xs[i]], xs[i + 1..]);
    SumConcat(xs[..i], [xs[i]]);
    SumConcat(xs[..i] + [x], xs[i + 1..]);
    SumConcat(xs[..i], [x]);
  }
}
