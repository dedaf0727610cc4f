// Scattering values through a row of a move table: the source's coordinate
// transitions all build a new cubie array with newArr[row[c]] := arr[c].

module ScatterRows {
  import opened Lehmer

  /** Every entry of the row is a valid slot of an array of n. */
  ghost predicate InRange(dest: seq<int>, n: nat)
  {
    |dest| == n && forall k :: 0 <= k < n ==> 0 <= dest[k] < n
  }

  /** The row sends the n pieces to n distinct slots. */
  ghost predicate IsBijection(dest: seq<int>, n: nat)
  {
    InRange(dest, n) && forall a, b :: 0 <= a < b < n ==> dest[a] != dest[b]
  }

  /** The array after the first k writes out[dest[c]] := vals[c], starting
      from an array of zeros (the default of a new Java int array). */
  function ScatterPrefix(vals: seq<int>, dest: seq<int>, k: nat): (r: seq<int>)
    requires |vals| == |dest| && InRange(dest, |dest|) && k <= |dest|
    ensures |r| == |dest|
  {
    if k == 0 then seq(|dest|, _ => 0)
    else ScatterPrefix(vals, dest, k - 1)[dest[k - 1] := vals[k - 1]]
  }

  function Scatter(vals: seq<int>, dest: seq<int>): (r: seq<int>)
    requires |vals| == |dest| && InRange(dest, |dest|)
    ensures |r| == |dest|
  {
    ScatterPrefix(vals, dest, |dest|)
  }

  lemma {:induction false} ScatterPrefixAt(vals: seq<int>, dest: seq<int>, k: nat, c: nat)
    requires |vals| == |dest| && IsBijection(dest, |dest|) && c < k <= |dest|
    ensures ScatterPrefix(vals, dest, k)[dest[c]] == vals[c]
  {
    if c < k - 1 {
      ScatterPrefixAt(vals, dest, k - 1, c);
    }
  }

  /** Through a bijective row, piece c lands in slot dest[c] with its value. */
  lemma ScatterAt(vals: seq<int>, dest: seq<int>, c: nat)
    requires |vals| == |dest| && IsBijection(dest, |dest|) && c < |dest|
    ensures Scatter(vals, dest)[dest[c]] == vals[c]
  {
    ScatterPrefixAt(vals, dest, |dest|, c);
  }

  /** The identity row leaves the array as it was. */
  lemma ScatterIdentity(vals: seq<int>)
    ensures InRange(Identity(|vals|), |vals|)
    ensures Scatter(vals, Identity(|vals|)) == vals
  {
    var n := |vals|;
    var id := Identity(n);
    assert IsBijection(id, n);
    forall c | 0 <= c < n ensures Scatter(vals, id)[c] == vals[c] {
      ScatterAt(vals, id, c);
    }
  }

  /** Every entry lies in [0, b). */
  ghost predicate Bounded(v: seq<int>, b: nat)
  {
    forall i :: 0 <= i < |v| ==> 0 <= v[i] < b
  }

  /** Scattering values in [0, b) gives values in [0, b): every slot holds
      one of them or the initial 0. */
  lemma {:induction false} ScatterPrefixBounded(vals: seq<int>, dest: seq<int>, k: nat, b: nat)
    requires |vals| == |dest| && InRange(dest, |dest|) && k <= |dest| && b > 0 && Bounded(vals, b)
    ensures Bounded(ScatterPrefix(vals, dest, k), b)
  {
    if k > 0 {
      ScatterPrefixBounded(vals, dest, k - 1, b);
    }
  }

  /** r with its last entry moved into slot j and the last slot dropped. */
  function MoveLast(r: seq<int>, j: nat): (r': seq<int>)
    requires j < |r|
    ensures |r'| == |r| - 1
    ensures forall i :: 0 <= i < |r| - 1 ==> r'[i] == if i == j then r[|r| - 1] else r[i]
  {
    if j == |r| - 1 then r[..j] else r[..j] + [r[|r| - 1]] + r[j + 1..|r| - 1]
  }

  lemma MoveLastMultiset(r: seq<int>, j: nat)
    requires j < |r|
    ensures multiset(r) == multiset(MoveLast(r, j)) + multiset{r[j]}
  {
    var n, x := |r|, r[|r| - 1];
    if j < n - 1 {
      var a, b := r[..j], r[j + 1..n - 1];
      assert r == a + [r[j]] + b + [x];
      assert MoveLast(r, j) == a + [x] + b;
    } else {
      assert r == r[..j] + [r[j]];
    }
  }

  /** The row restricted to the first n - 1 pieces, with the piece that
      went to the last slot redirected to slot j = dest[n - 1]. */
  lemma MoveLastRow(dest: seq<int>, n: nat) returns (dest': seq<int>)
    requires n > 0 && IsBijection(dest, n)
    ensures IsBijection(dest', n - 1)
    ensures forall k :: 0 <= k < n - 1 ==>
      dest'[k] == if dest[k] == n - 1 then dest[n - 1] else dest[k]
  {
    var j := dest[n - 1];
    dest' := seq(n - 1, k requires 0 <= k < n - 1 => if dest[k] == n - 1 then j else dest[k]);
    forall k | 0 <= k < n - 1 ensures 0 <= dest'[k] < n - 1 {
      assert dest[k] != j;
    }
    forall a, b | 0 <= a < b < n - 1 ensures dest'[a] != dest'[b] {
      assert dest[a] != dest[b] && dest[a] != j && dest[b] != j;
    }
  }

  /** If r holds v[k] in slot dest[k] for a bijective dest, r is a rearrangement of v. */
  lemma {:induction false} Rearranged(v: seq<int>, dest: seq<int>, r: seq<int>)
    requires |v| == |r| && IsBijection(dest, |v|)
    requires forall k :: 0 <= k < |v| ==> r[dest[k]] == v[k]
    ensures multiset(r) == multiset(v)
    decreases |v|
  {
    var n := |v|;
    if n > 0 {
      var j := dest[n - 1];
      var r' := MoveLast(r, j);
      MoveLastMultiset(r, j);
      var dest' := MoveLastRow(dest, n);
      forall k | 0 <= k < n - 1 ensures r'[dest'[k]] == v[k] {
        assert dest[k] != j;
      }
      Rearranged(v[..n - 1], dest', r');
      assert v == v[..n - 1] + [v[n - 1]];
    }
  }

  /** Scattering through a bijective row rearranges the values. */
  lemma ScatterMultiset(vals: seq<int>, dest: seq<int>)
    requires |vals| == |dest| && IsBijection(dest, |dest|)
    ensures multiset(Scatter(vals, dest)) == multiset(vals)
  {
    forall k | 0 <= k < |vals| ensures Scatter(vals, dest)[dest[k]] == vals[k] {
      ScatterAt(vals, dest, k);
    }
    Rearranged(vals, dest, Scatter(vals, dest));
  }

  /** Through a bijective row, different inputs give different outputs. */
  lemma ScatterInjective(a: seq<int>, b: seq<int>, dest: seq<int>)
    requires |a| == |b| == |dest| && IsBijection(dest, |dest|)
    requires Scatter(a, dest) == Scatter(b, dest)
    ensures a == b
  {
    forall k | 0 <= k < |a| ensures a[k] == b[k] {
      ScatterAt(a, dest, k);
      ScatterAt(b, dest, k);
    }
  }

  function Sum(s: seq<int>): int
  {
    if s == [] then 0 else Sum(s[..|s| - 1]) + s[|s| - 1]
  }

  lemma {:induction false} SumNonNegative(s: seq<int>)
    requires forall i :: 0 <= i < |s| ==> s[i] >= 0
    ensures Sum(s) >= 0
    decreases |s|
  {
    if s != [] {
      SumNonNegative(s[..|s| - 1]);
    }
  }

  lemma {:induction false} SumConcat(a: seq<int>, b: seq<int>)
    ensures Sum(a + b) == Sum(a) + Sum(b)
    decreases |b|
  {
    if b != [] {
      var c := a + b;
      assert c[..|c| - 1] == a + b[..|b| - 1] && c[|c| - 1] == b[|b| - 1];
      SumConcat(a, b[..|b| - 1]);
    } else {
      assert a + b == a;
    }
  }

  lemma SumRemove(t: seq<int>, k: nat)
    requires k < |t|
    ensures Sum(t) == Sum(Remove(t, k)) + t[k]
  {
    var a, b, c := t[..k], t[k + 1..], t[..k + 1];
    assert Sum(t) == Sum(c) + Sum(b) by {
      assert t == c + b;
      SumConcat(c, b);
    }
    assert Sum(c) == Sum(a) + t[k] by {
      assert c[..k] == a;
    }
    assert Sum(Remove(t, k)) == Sum(a) + Sum(b) by {
      SumConcat(a, b);
    }
  }

  lemma IndexOf(t: seq<int>, x: int) returns (k: nat)
    requires x in multiset(t)
    ensures k < |t| && t[k] == x
  {
    k :| 0 <= k < |t| && t[k] == x;
  }

  /** The sum depends only on the multiset of entries. */
  lemma {:induction false} SumRearranged(s: seq<int>, t: seq<int>)
    requires multiset(s) == multiset(t)
    ensures Sum(s) == Sum(t)
    decreases |s|
  {
    if s != [] {
      var x := s[|s| - 1];
      var s' := s[..|s| - 1];
      assert x in multiset(t) by {
        assert s == s' + [x];
      }
      var k := IndexOf(t, x);
      assert multiset(s') == multiset(Remove(t, k)) by {
        assert s == s' + [x];
        RemoveMultiset(t, k);
      }
      SumRearranged(s', Remove(t, k));
      SumRemove(t, k);
    }
  }
}
