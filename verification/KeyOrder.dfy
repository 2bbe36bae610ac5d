/** The order in which the fields of two JSON objects are visited: all keys, sorted. */
module KeyOrder {

  predicate Less(a: string, b: string) {
    if b == "" then false
    else if a == "" then true
    else a[0] < b[0] || (a[0] == b[0] && Less(a[1..], b[1..]))
  }

  lemma {:induction false} Trichotomy(a: string, b: string)
    ensures a == b || Less(a, b) || Less(b, a)
    ensures !(Less(a, b) && (a == b || Less(b, a)))
  {
    if a != "" && b != "" && a[0] == b[0] {
      Trichotomy(a[1..], b[1..]);
      assert a == [a[0]] + a[1..] && b == [b[0]] + b[1..];
    }
  }

  lemma {:induction false} Transitive(a: string, b: string, c: string)
    requires Less(a, b) && Less(b, c)
    ensures Less(a, c)
  {
    if a != "" && a[0] == b[0] && b[0] == c[0] {
      Transitive(a[1..], b[1..], c[1..]);
    }
  }

  ghost predicate IsLeast(k: string, s: set<string>) {
    k in s && forall x :: x in s && x != k ==> Less(k, x)
  }

  lemma {:induction false} LeastExists(s: set<string>)
    requires s != {}
    ensures exists k :: IsLeast(k, s)
    decreases |s|
  {
    var x :| x in s;
    if s == {x} {
      assert IsLeast(x, s);
    } else {
      LeastExists(s - {x});
      var k :| IsLeast(k, s - {x});
      Trichotomy(x, k);
      if Less(x, k) {
        forall y | y in s && y != x ensures Less(x, y) {
          if y != k { Transitive(x, k, y); }
        }
        assert IsLeast(x, s);
      } else {
        assert IsLeast(k, s);
      }
    }
  }

  predicate Sorted(ks: seq<string>) {
    forall i, j :: 0 <= i < j < |ks| ==> Less(ks[i], ks[j])
  }

  ghost function SortedKeys(s: set<string>): (r: seq<string>)
    ensures Sorted(r)
    ensures forall k :: k in r <==> k in s
    decreases |s|
  {
    if s == {} then [] else
      LeastExists(s);
      var k :| IsLeast(k, s);
      var rest := SortedKeys(s - {k});
      assert forall i :: 0 <= i < |rest| ==> rest[i] in rest;
      assert ([k] + rest)[1..] == rest;
      [k] + rest
  }

  lemma SortedIsDistinct(ks: seq<string>)
    requires Sorted(ks)
    ensures forall i, j :: 0 <= i < j < |ks| ==> ks[i] != ks[j]
  {
    forall i, j | 0 <= i < j < |ks| ensures ks[i] != ks[j] {
      Trichotomy(ks[i], ks[j]);
    }
  }

  /** A set has one sorted listing. */
  lemma {:induction false} SortedIsUnique(a: seq<string>, b: seq<string>)
    requires Sorted(a) && Sorted(b)
    requires forall k :: k in a <==> k in b
    ensures a == b
  {
    assert b != [] ==> b[0] in b;
    if a != [] {
      assert a[0] in b;
      assert b[0] in a;
      var i :| 0 <= i < |b| && b[i] == a[0];
      var j :| 0 <= j < |a| && a[j] == b[0];
      Trichotomy(a[0], b[0]);
      assert a[0] == b[0];
      SortedIsDistinct(a);
      SortedIsDistinct(b);
      forall k ensures k in a[1..] <==> k in b[1..] {
        if k in a[1..] {
          var x :| 0 <= x < |a[1..]| && a[1..][x] == k;
          assert k != a[0];
          assert k in a;
        }
        if k in b[1..] {
          var x :| 0 <= x < |b[1..]| && b[1..][x] == k;
          assert k != b[0];
          assert k in b;
        }
      }
      SortedIsUnique(a[1..], b[1..]);
    }
  }

  /** Sorts the keys of a map whatever order they come out in. */
  method SortStrings(s: set<string>) returns (r: seq<string>)
    ensures r == SortedKeys(s)
  {
    r := [];
    var todo := s;
    while todo != {}
      invariant todo <= s
      invariant Sorted(r)
      invariant forall k :: k in r <==> k in s - todo
      decreases |todo|
    {
      var k :| k in todo;
      r := Insert(r, k);
      todo := todo - {k};
    }
    SortedIsUnique(r, SortedKeys(s));
  }

  method Insert(r: seq<string>, k: string) returns (r': seq<string>)
    requires Sorted(r) && k !in r
    ensures Sorted(r')
    ensures forall x :: x in r' <==> x in r || x == k
  {
    var i := 0;
    while i < |r| && Less(r[i], k)
      invariant 0 <= i <= |r|
      invariant forall x :: 0 <= x < i ==> Less(r[x], k)
    {
      i := i + 1;
    }
    r' := r[..i] + [k] + r[i..];
    if i < |r| { Trichotomy(r[i], k); }
    forall x | i <= x < |r| ensures Less(k, r[x]) {
      if x > i { Transitive(k, r[i], r[x]); }
    }
    assert r == r[..i] + r[i..];
  }

  /** a is a proper prefix of b, or at the first place where they differ it has the lesser
      character. */
  ghost predicate DiffersLower(a: string, b: string, i: nat) {
    && i <= |a| && i < |b| && a[..i] == b[..i]
    && (i == |a| || a[i] < b[i])
  }

  lemma {:induction false} LessIff(a: string, b: string)
    ensures Less(a, b) <==> exists i :: DiffersLower(a, b, i)
    decreases |a|
  {
    if a != "" && b != "" && a[0] == b[0] {
      LessIff(a[1..], b[1..]);
      if i: nat :| DiffersLower(a, b, i) {
        assert i > 0 && a[1..][..i - 1] == a[..i][1..] && b[1..][..i - 1] == b[..i][1..];
        assert DiffersLower(a[1..], b[1..], i - 1);
      }
      if i: nat :| DiffersLower(a[1..], b[1..], i) {
        assert a[..i + 1] == [a[0]] + a[1..][..i] && b[..i + 1] == [b[0]] + b[1..][..i];
        assert DiffersLower(a, b, i + 1);
      }
    } else if b != "" && (a == "" || a[0] < b[0]) {
      assert DiffersLower(a, b, 0);
    }
  }
}
