/** Bipartite matchings between the index ranges [0, n) and [0, m), and the greedy
    first-fit pairing that the unordered array comparison performs. */
module Matching {

  /** R[i][j] says whether row i may be paired with column j. */
  type Relation = seq<seq<bool>>

  ghost predicate IsTable(R: Relation, n: nat, size: nat) {
    |R| == n && forall i :: 0 <= i < n ==> |R[i]| == size
  }

  // ----- permutations -----

  ghost predicate IsPermutation(p: seq<nat>, n: nat) {
    && |p| == n
    && (forall i :: 0 <= i < n ==> p[i] < n)
    && (forall i, j :: 0 <= i < j < n ==> p[i] != p[j])
  }

  /** The element at place i of the result is the element at place p[i] of s. */
  ghost function Permuted<T>(s: seq<T>, p: seq<nat>): (r: seq<T>)
    requires IsPermutation(p, |s|)
  {
    seq(|s|, i requires 0 <= i < |s| => s[p[i]])
  }

  ghost function Identity(n: nat): seq<nat> {
    seq(n, i => i)
  }

  ghost function Compose(p: seq<nat>, q: seq<nat>): (r: seq<nat>)
    requires |p| == |q|
    requires IsPermutation(p, |p|) && IsPermutation(q, |p|)
    ensures IsPermutation(r, |p|)
  {
    seq(|p|, i requires 0 <= i < |p| => q[p[i]])
  }

  ghost function Below(n: nat): (s: set<nat>)
    ensures |s| == n
    ensures forall i: nat :: i in s <==> i < n
  {
    if n == 0 then {} else Below(n - 1) + {n - 1}
  }

  /** Pigeonhole: an injection of [0, n) into itself reaches every index. */
  lemma PermutationIsOnto(p: seq<nat>, n: nat, j: nat)
    requires IsPermutation(p, n) && j < n
    ensures exists i :: 0 <= i < n && p[i] == j
  {
    var image := set i | 0 <= i < n :: p[i];
    InjectiveImageSize(p, n);
    assert image <= Below(n);
    SubsetOfSameSize(image, Below(n));
    assert j in image;
  }

  lemma InjectiveImageSize(p: seq<nat>, k: nat)
    requires k <= |p|
    requires forall i, j :: 0 <= i < j < |p| ==> p[i] != p[j]
    ensures |set i | 0 <= i < k :: p[i]| == k
  {
    if k > 0 {
      InjectiveImageSize(p, k - 1);
      var s := set i | 0 <= i < k - 1 :: p[i];
      assert p[k - 1] !in s;
      assert (set i | 0 <= i < k :: p[i]) == s + {p[k - 1]};
    }
  }

  lemma SubsetOfSameSize<T>(a: set<T>, b: set<T>)
    requires a <= b && |a| == |b|
    ensures a == b
  {
    assert |b - a| == |b| - |a|;
    assert b == a + (b - a);
  }

  ghost function Inverse(p: seq<nat>): (r: seq<nat>)
    requires IsPermutation(p, |p|)
    ensures IsPermutation(r, |p|)
    ensures forall i :: 0 <= i < |p| ==> p[r[i]] == i
    ensures forall i :: 0 <= i < |p| ==> r[p[i]] == i
  {
    var r := seq(|p|, j requires 0 <= j < |p| =>
      PermutationIsOnto(p, |p|, j); var i: nat :| i < |p| && p[i] == j; i);
    assert forall j :: 0 <= j < |p| ==> r[j] < |p| && p[r[j]] == j;
    assert forall i :: 0 <= i < |p| ==> p[r[p[i]]] == p[i];
    r
  }

  // ----- matchings -----

  /** m pairs each of its keys, taken from [lo, n), with a free index of [0, size). */
  ghost predicate Edges(R: Relation, lo: nat, n: nat, size: nat, used: set<nat>, m: map<nat, nat>)
    requires IsTable(R, n, size)
  {
    forall i :: i in m ==> lo <= i < n && m[i] < size && m[i] !in used && R[i][m[i]]
  }

  ghost predicate Injective(m: map<nat, nat>) {
    forall i, j :: i in m && j in m && i != j ==> m[i] != m[j]
  }

  ghost predicate IsMatching(R: Relation, lo: nat, n: nat, size: nat, used: set<nat>, m: map<nat, nat>)
    requires IsTable(R, n, size)
  {
    Edges(R, lo, n, size, used, m) && Injective(m)
  }

  ghost predicate ShareColumn(R: Relation, i: nat, i': nat, j: nat) {
    i < |R| && i' < |R| && j < |R[i]| && j < |R[i']| && R[i][j] && R[i'][j]
  }

  /** What an equivalence leaves of itself between two ranges: rows that share a column are equal. */
  ghost predicate Rectangular(R: Relation) {
    forall i: nat, i': nat, j: nat :: ShareColumn(R, i, i', j) ==> R[i] == R[i']
  }

  /** The first index at or after j that is unused and set in the row; the row's length when there is none. */
  function FirstFit(row: seq<bool>, j: nat, used: set<nat>): (k: nat)
    requires j <= |row|
    ensures j <= k <= |row|
    ensures k < |row| ==> k !in used && row[k]
    ensures forall x :: j <= x < k ==> x in used || !row[x]
    decreases |row| - j
  {
    if j == |row| || (j !in used && row[j]) then j else FirstFit(row, j + 1, used)
  }

  /** Greedy pairing of the indices i, i + 1, ..., n - 1 in this order. */
  function Greedy(R: Relation, i: nat, n: nat, size: nat, used: set<nat>): (m: map<nat, nat>)
    requires i <= n && IsTable(R, n, size)
    ensures forall y :: y in m ==> i <= y < n
    decreases n - i
  {
    if i == n then map[] else
      var k := FirstFit(R[i], 0, used);
      if k < size then Greedy(R, i + 1, n, size, used + {k})[i := k]
      else Greedy(R, i + 1, n, size, used)
  }

  lemma {:induction false} GreedyIsMatching(R: Relation, i: nat, n: nat, size: nat, used: set<nat>)
    requires i <= n && IsTable(R, n, size)
    ensures IsMatching(R, i, n, size, used, Greedy(R, i, n, size, used))
    decreases n - i
  {
    if i < n {
      var k := FirstFit(R[i], 0, used);
      GreedyIsMatching(R, i + 1, n, size, if k < size then used + {k} else used);
    }
  }

  lemma WithoutPair(R: Relation, i: nat, n: nat, size: nat, used: set<nat>, k: nat, m: map<nat, nat>, x: nat)
    requires IsTable(R, n, size) && IsMatching(R, i, n, size, used, m)
    requires if k in m.Values then x in m && m[x] == k && (i !in m || x == i) else x == i
    ensures IsMatching(R, i + 1, n, size, used + {k}, m - {x})
    ensures |m - {x}| + 1 >= |m|
  {
    SizeWithout(m, x);
    assert k !in m.Values ==> forall y :: y in m ==> m[y] != k;
  }

  lemma Rerouted(R: Relation, i: nat, n: nat, size: nat, used: set<nat>, k: nat, m: map<nat, nat>, x: nat)
    requires IsTable(R, n, size) && IsMatching(R, i, n, size, used, m)
    requires i in m && x in m && i != x && m[x] == k && R[x][m[i]]
    ensures IsMatching(R, i + 1, n, size, used + {k}, (m - {i})[x := m[i]])
    ensures |(m - {i})[x := m[i]]| + 1 == |m|
  {
    SizeWithout(m, i);
    assert (m - {i})[x := m[i]].Keys == m.Keys - {i};
    assert |(m - {i})[x := m[i]]| == |(m - {i})[x := m[i]].Keys|;
  }

  lemma SharedColumn(R: Relation, n: nat, size: nat, i: nat, i': nat, j: nat, j': nat)
    requires IsTable(R, n, size) && Rectangular(R)
    requires i < n && i' < n && j < size && j' < size
    requires R[i][j] && R[i'][j] && R[i][j']
    ensures R[i'][j']
  {
    assert ShareColumn(R, i, i', j);
  }

  /** Taking one index on each side away from a matching costs at most one pair,
      provided the two indices are related. */
  lemma Exchange(R: Relation, i: nat, n: nat, size: nat, used: set<nat>, k: nat, m: map<nat, nat>)
    returns (m': map<nat, nat>)
    requires IsTable(R, n, size) && Rectangular(R)
    requires i < n && k < size && R[i][k]
    requires IsMatching(R, i, n, size, used, m)
    ensures IsMatching(R, i + 1, n, size, used + {k}, m')
    ensures |m'| + 1 >= |m|
  {
    if k !in m.Values {
      m' := m - {i};
      WithoutPair(R, i, n, size, used, k, m, i);
    } else {
      var x :| x in m && m[x] == k;
      if i !in m || x == i {
        m' := m - {x};
        WithoutPair(R, i, n, size, used, k, m, x);
      } else {
        m' := (m - {i})[x := m[i]];
        SharedColumn(R, n, size, i, x, k, m[i]);
        Rerouted(R, i, n, size, used, k, m, x);
      }
    }
  }

  lemma SizeWith(m: map<nat, nat>, x: nat, v: nat)
    requires forall y :: y in m ==> x < y
    ensures |m[x := v]| == |m| + 1
  {
    assert m[x := v].Keys == m.Keys + {x};
    assert |m[x := v]| == |m[x := v].Keys| && |m| == |m.Keys|;
  }

  lemma SizeWithout(m: map<nat, nat>, x: nat)
    ensures |m - {x}| == if x in m then |m| - 1 else |m|
    ensures (m - {x}).Keys == m.Keys - {x}
  {
    assert (m - {x}).Keys == m.Keys - {x};
    assert |m - {x}| == |(m - {x}).Keys| && |m| == |m.Keys|;
  }

  /** The number of pairs that the greedy pairing makes. */
  ghost function GreedySize(R: Relation, i: nat, n: nat, size: nat, used: set<nat>): nat
    requires i <= n && IsTable(R, n, size)
    decreases n - i
  {
    if i == n then 0 else
      var k := FirstFit(R[i], 0, used);
      if k < size then GreedySize(R, i + 1, n, size, used + {k}) + 1
      else GreedySize(R, i + 1, n, size, used)
  }

  lemma {:induction false} GreedySizeIsSize(R: Relation, i: nat, n: nat, size: nat, used: set<nat>)
    requires i <= n && IsTable(R, n, size)
    ensures |Greedy(R, i, n, size, used)| == GreedySize(R, i, n, size, used)
    decreases n - i
  {
    if i < n {
      var k := FirstFit(R[i], 0, used);
      if k < size {
        GreedySizeIsSize(R, i + 1, n, size, used + {k});
        SizeWith(Greedy(R, i + 1, n, size, used + {k}), i, k);
      } else {
        GreedySizeIsSize(R, i + 1, n, size, used);
      }
    }
  }

  lemma NothingFits(R: Relation, i: nat, n: nat, size: nat, used: set<nat>, m: map<nat, nat>)
    requires i < n && IsTable(R, n, size) && IsMatching(R, i, n, size, used, m)
    requires FirstFit(R[i], 0, used) == size
    ensures IsMatching(R, i + 1, n, size, used, m)
  {
    assert i !in m;
  }

  lemma EmptyMatching(R: Relation, n: nat, size: nat, used: set<nat>, m: map<nat, nat>)
    requires IsTable(R, n, size) && IsMatching(R, n, n, size, used, m)
    ensures |m| == 0
  {
    assert m.Keys == {};
    assert |m| == |m.Keys|;
  }

  lemma {:induction false} GreedySizeIsMaximum(R: Relation, i: nat, n: nat, size: nat, used: set<nat>, m: map<nat, nat>)
    requires i <= n && IsTable(R, n, size) && Rectangular(R)
    requires IsMatching(R, i, n, size, used, m)
    ensures |m| <= GreedySize(R, i, n, size, used)
    decreases n - i
  {
    if i == n {
      EmptyMatching(R, n, size, used, m);
    } else {
      var k := FirstFit(R[i], 0, used);
      if k < size {
        var m' := Exchange(R, i, n, size, used, k, m);
        GreedySizeIsMaximum(R, i + 1, n, size, used + {k}, m');
      } else {
        NothingFits(R, i, n, size, used, m);
        GreedySizeIsMaximum(R, i + 1, n, size, used, m);
      }
    }
  }

  /** First-fit is a maximum matching: no matching of the same ranges has more pairs. */
  lemma GreedyIsMaximum(R: Relation, n: nat, size: nat, m: map<nat, nat>)
    requires IsTable(R, n, size) && Rectangular(R)
    requires IsMatching(R, 0, n, size, {}, m)
    ensures IsMatching(R, 0, n, size, {}, Greedy(R, 0, n, size, {}))
    ensures |m| <= |Greedy(R, 0, n, size, {})|
  {
    GreedyIsMatching(R, 0, n, size, {});
    GreedySizeIsMaximum(R, 0, n, size, {}, m);
    GreedySizeIsSize(R, 0, n, size, {});
  }

  // ----- perfect matchings are permutations -----

  lemma MatchingSizes(R: Relation, n: nat, size: nat, m: map<nat, nat>)
    requires IsTable(R, n, size) && IsMatching(R, 0, n, size, {}, m)
    ensures |m.Values| == |m| <= n
    ensures m.Values <= Below(size) && m.Keys <= Below(n)
  {
    ValuesOfInjection(m);
    SubsetSize(m.Keys, Below(n));
    assert |m| == |m.Keys|;
  }

  lemma SubsetSize<T>(a: set<T>, b: set<T>)
    requires a <= b
    ensures |a| <= |b|
  {
    assert b == a + (b - a);
  }

  lemma {:induction false} ValuesOfInjection(m: map<nat, nat>)
    requires forall i, j :: i in m && j in m && i != j ==> m[i] != m[j]
    ensures |m.Values| == |m|
    decreases |m|
  {
    if i :| i in m {
      var rest := m - {i};
      SizeWithout(m, i);
      ValuesOfInjection(rest);
      forall v | v in m.Values ensures v in rest.Values + {m[i]} {
        var x :| x in m && m[x] == v;
        if x != i { assert rest[x] == v; }
      }
      assert m.Values == rest.Values + {m[i]};
      assert m[i] !in rest.Values;
    } else {
      assert m == map[];
      assert m.Values == {};
    }
  }

  ghost predicate Pairs(R: Relation, p: seq<nat>, n: nat)
    requires IsTable(R, n, n)
  {
    IsPermutation(p, n) && forall i :: 0 <= i < n ==> R[i][p[i]]
  }

  lemma PermutationOfMatching(R: Relation, n: nat, m: map<nat, nat>) returns (p: seq<nat>)
    requires IsTable(R, n, n) && IsMatching(R, 0, n, n, {}, m) && |m| == n
    ensures Pairs(R, p, n)
  {
    MatchingSizes(R, n, n, m);
    assert |m| == |m.Keys|;
    SubsetOfSameSize(m.Keys, Below(n));
    p := seq(n, i requires 0 <= i < n => assert i in m.Keys; m[i]);
    assert forall i :: 0 <= i < n ==> i in m && p[i] == m[i];
  }

  lemma MatchingOfPermutation(R: Relation, n: nat, p: seq<nat>) returns (m: map<nat, nat>)
    requires IsTable(R, n, n) && Pairs(R, p, n)
    ensures IsMatching(R, 0, n, n, {}, m) && |m| == n
  {
    m := map i: nat | 0 <= i < n :: p[i];
    assert m.Keys == Below(n);
    assert |m| == |m.Keys|;
  }

  /** The greedy pairing is perfect exactly when some permutation pairs everything. */
  lemma GreedyPerfectIffPermutation(R: Relation, n: nat)
    requires IsTable(R, n, n) && Rectangular(R)
    ensures |Greedy(R, 0, n, n, {})| == n <==> exists p :: Pairs(R, p, n)
  {
    var g := Greedy(R, 0, n, n, {});
    GreedyIsMatching(R, 0, n, n, {});
    MatchingSizes(R, n, n, g);
    if |g| == n {
      var p := PermutationOfMatching(R, n, g);
    }
    if p :| Pairs(R, p, n) {
      var m := MatchingOfPermutation(R, n, p);
      GreedyIsMaximum(R, n, n, m);
    }
  }

  // ----- the size does not depend on the order of either side -----

  /** S is R with its rows taken in the order p and its columns in the order q. */
  ghost predicate Reorders(R: Relation, S: Relation, n: nat, size: nat, p: seq<nat>, q: seq<nat>) {
    && IsPermutation(p, n) && IsPermutation(q, size) && IsTable(R, n, size) && IsTable(S, n, size)
    && forall i, j :: 0 <= i < n && 0 <= j < size ==> S[i][j] == R[p[i]][q[j]]
  }

  lemma InjectiveSize(f: map<nat, nat>)
    requires Injective(f)
    ensures |f.Values| == |f.Keys|
  {
    ValuesOfInjection(f);
    assert |f| == |f.Keys|;
  }

  /** Reordering both sides carries a matching to one with as many pairs. */
  lemma Reordered(R: Relation, S: Relation, n: nat, size: nat, p: seq<nat>, q: seq<nat>, m: map<nat, nat>)
    returns (m': map<nat, nat>)
    requires Reorders(R, S, n, size, p, q)
    requires IsMatching(R, 0, n, size, {}, m)
    ensures IsMatching(S, 0, n, size, {}, m')
    ensures |m'| == |m|
  {
    var qi := Inverse(q);
    m' := map i: nat | 0 <= i < n && p[i] in m :: qi[m[p[i]]];
    assert Edges(S, 0, n, size, {}, m');
    forall i, j | i in m' && j in m' && i != j ensures m'[i] != m'[j] {
      assert p[i] != p[j];
      assert q[m'[i]] == m[p[i]] && q[m'[j]] == m[p[j]];
    }
    ReorderedKeys(p, n, m, m');
  }

  lemma ReorderedKeys(p: seq<nat>, n: nat, m: map<nat, nat>, m': map<nat, nat>)
    requires IsPermutation(p, n)
    requires forall i :: i in m ==> i < n
    requires forall i: nat :: i in m' <==> i < n && p[i] in m
    ensures |m'| == |m|
  {
    var f := map i: nat | i in m' :: p[i];
    assert f.Keys == m'.Keys;
    InjectiveSize(f);
    forall x | x in m ensures x in f.Values {
      PermutationIsOnto(p, n, x);
      var i :| 0 <= i < n && p[i] == x;
      assert f[i] == x;
    }
    assert f.Values == m.Keys;
    assert |m'| == |m'.Keys| && |m| == |m.Keys|;
  }

  lemma ReordersBack(R: Relation, S: Relation, n: nat, size: nat, p: seq<nat>, q: seq<nat>)
    requires Reorders(R, S, n, size, p, q)
    ensures Reorders(S, R, n, size, Inverse(p), Inverse(q))
  {
    var pi, qi := Inverse(p), Inverse(q);
    forall i, j | 0 <= i < n && 0 <= j < size ensures R[i][j] == S[pi[i]][qi[j]] {
      assert p[pi[i]] == i && q[qi[j]] == j;
    }
  }

  lemma RectangularReordered(R: Relation, S: Relation, n: nat, size: nat, p: seq<nat>, q: seq<nat>)
    requires Reorders(R, S, n, size, p, q)
    requires Rectangular(R)
    ensures Rectangular(S)
  {
    forall i: nat, i': nat, j: nat | ShareColumn(S, i, i', j) ensures S[i] == S[i'] {
      assert ShareColumn(R, p[i], p[i'], q[j]);
      forall k | 0 <= k < size ensures S[i][k] == S[i'][k] {
        assert S[i][k] == R[p[i]][q[k]] && S[i'][k] == R[p[i']][q[k]];
      }
    }
  }

  /** The number of greedy pairs is the same for every order of the two sides. */
  lemma GreedySizeIgnoresOrder(R: Relation, S: Relation, n: nat, size: nat, p: seq<nat>, q: seq<nat>)
    requires Reorders(R, S, n, size, p, q)
    requires Rectangular(R)
    ensures |Greedy(S, 0, n, size, {})| == |Greedy(R, 0, n, size, {})|
  {
    RectangularReordered(R, S, n, size, p, q);
    GreedyIsMatching(R, 0, n, size, {});
    GreedyIsMatching(S, 0, n, size, {});
    var forth := Reordered(R, S, n, size, p, q, Greedy(R, 0, n, size, {}));
    GreedyIsMaximum(S, n, size, forth);
    ReordersBack(R, S, n, size, p, q);
    var back := Reordered(S, R, n, size, Inverse(p), Inverse(q), Greedy(S, 0, n, size, {}));
    GreedyIsMaximum(R, n, size, back);
  }
}
