/** Lehmer codes: the factorial-number-system bijection between the
    permutations of a sorted list of n distinct values and [0, n!).
    The pruning tables of the permutation phase are indexed by these codes.

    Products and quotients are written with the recursive Mul, Quot and Rem
    below rather than with * and /, so that the proofs about codes stay
    linear; MulIsProduct and QuotRemOfDiv tie them to the built-in operators. */
module Lehmer {

  // ---------------------------------------------------------------------
  // Arithmetic

  /** a * b as repeated addition. */
  function Mul(a: nat, b: nat): nat
  {
    if a == 0 then 0 else Mul(a - 1, b) + b
  }

  /** Quotient of x by f, by repeated subtraction. */
  function Quot(x: nat, f: nat): nat
    requires f > 0
    decreases x
  {
    if x < f then 0 else 1 + Quot(x - f, f)
  }

  /** Remainder of x by f, by repeated subtraction. */
  function Rem(x: nat, f: nat): (r: nat)
    requires f > 0
    ensures r < f
    decreases x
  {
    if x < f then x else Rem(x - f, f)
  }

  lemma {:induction false} MulIsProduct(a: nat, b: nat)
    ensures Mul(a, b) == a * b
  {
    if a > 0 {
      MulIsProduct(a - 1, b);
    }
  }

  lemma {:induction false} MulMonotone(a: nat, a': nat, b: nat)
    requires a <= a'
    ensures Mul(a, b) <= Mul(a', b)
    decreases a'
  {
    if a < a' {
      MulMonotone(a, a' - 1, b);
    }
  }

  lemma {:induction false} MulDistributes(a: nat, c: nat, b: nat)
    ensures Mul(a + c, b) == Mul(a, b) + Mul(c, b)
    decreases c
  {
    if c > 0 {
      MulDistributes(a, c - 1, b);
    }
  }

  lemma {:induction false} MulAssociates(a: nat, b: nat, c: nat)
    ensures Mul(a, Mul(b, c)) == Mul(Mul(a, b), c)
  {
    if a > 0 {
      MulAssociates(a - 1, b, c);
      MulDistributes(Mul(a - 1, b), b, c);
    }
  }

  lemma {:induction false} MulOne(a: nat)
    ensures Mul(a, 1) == a
  {
    if a > 0 {
      MulOne(a - 1);
    }
  }

  /** Division with remainder: x == Quot(x, f) * f + Rem(x, f). */
  lemma {:induction false} QuotRem(x: nat, f: nat)
    requires f > 0
    ensures x == Mul(Quot(x, f), f) + Rem(x, f)
    decreases x
  {
    if x >= f {
      QuotRem(x - f, f);
    }
  }

  /** Quotient and remainder are the only such pair. */
  lemma {:induction false} QuotRemUnique(x: nat, f: nat, d: nat, r: nat)
    requires f > 0 && r < f && x == Mul(d, f) + r
    ensures Quot(x, f) == d && Rem(x, f) == r
    decreases d
  {
    if d > 0 {
      QuotRemUnique(x - f, f, d - 1, r);
    }
  }

  /** x < n * f gives a quotient below n. */
  lemma QuotBelow(x: nat, f: nat, n: nat)
    requires f > 0 && x < Mul(n, f)
    ensures Quot(x, f) < n
  {
    QuotRem(x, f);
    if Quot(x, f) >= n {
      MulMonotone(n, Quot(x, f), f);
    }
  }

  /** x >= n * f gives a quotient of at least n. */
  lemma QuotAtLeast(x: nat, f: nat, n: nat)
    requires f > 0 && x >= Mul(n, f)
    ensures Quot(x, f) >= n
  {
    QuotRem(x, f);
    if Quot(x, f) < n {
      MulMonotone(Quot(x, f) + 1, n, f);
    }
  }

  /** A digit d <= n-1 followed by a remainder below f stays below n * f. */
  lemma DigitBound(d: nat, f: nat, rest: nat, n: nat)
    requires 1 <= n && d <= n - 1 && rest < f
    ensures Mul(d, f) + rest < Mul(n, f)
  {
    MulMonotone(d, n - 1, f);
  }

  /** The built-in quotient and remainder agree with Quot and Rem. */
  lemma QuotRemOfDiv(x: nat, f: nat)
    requires f > 0
    ensures Quot(x, f) == x / f && Rem(x, f) == x % f
  {
    MulIsProduct(x / f, f);
    QuotRemUnique(x, f, x / f, x % f);
  }

  // ---------------------------------------------------------------------
  // Specification

  /** n! */
  function Factorial(n: nat): (r: nat)
    ensures r >= 1
  {
    if n == 0 then 1 else Mul(n, Factorial(n - 1))
  }

  /** Number of entries of s strictly below v. */
  function CountLess(s: seq<int>, v: int): (c: nat)
    ensures c <= |s|
  {
    if s == [] then 0 else CountLess(s[..|s| - 1], v) + (if s[|s| - 1] < v then 1 else 0)
  }

  /** Strictly increasing. */
  ghost predicate Sorted(s: seq<int>)
  {
    forall i, j :: 0 <= i < j < |s| ==> s[i] < s[j]
  }

  /** The identity permutation [0, 1, ..., n-1]. */
  function Identity(n: nat): (s: seq<int>)
    ensures |s| == n
    ensures forall i :: 0 <= i < n ==> s[i] == i
  {
    seq(n, i => i)
  }

  /** A permutation of 0..n-1. */
  ghost predicate IsPermutation(p: seq<int>, n: nat)
  {
    multiset(p) == multiset(Identity(n))
  }

  /** The Lehmer code: the first entry's rank among the remaining ones,
      weighted by (n-1)!, plus the code of the rest. */
  function Code(p: seq<int>): nat
  {
    if p == [] then 0 else Mul(CountLess(p[1..], p[0]), Factorial(|p| - 1)) + Code(p[1..])
  }

  /** s without its entry at index i. */
  function Remove(s: seq<int>, i: nat): (r: seq<int>)
    requires i < |s|
    ensures |r| == |s| - 1
  {
    s[..i] + s[i + 1..]
  }

  lemma RemoveMultiset(s: seq<int>, i: nat)
    requires i < |s|
    ensures multiset(Remove(s, i)) == multiset(s) - multiset{s[i]}
  {
    RemoveAdds(s, i);
  }

  lemma RemoveAdds(s: seq<int>, i: nat)
    requires i < |s|
    ensures multiset(s) == multiset(Remove(s, i)) + multiset{s[i]}
  {
    assert s == s[..i] + [s[i]] + s[i + 1..];
  }

  /** Decoding: the digit code / (k-1)! picks an entry of the list of values
      still available, which is then removed. */
  function Decode(code: nat, avail: seq<int>): (p: seq<int>)
    requires code < Factorial(|avail|)
    ensures |p| == |avail|
    decreases |avail|
  {
    if avail == [] then []
    else
      var f := Factorial(|avail| - 1);
      QuotBelow(code, f, |avail|);
      var d := Quot(code, f);
      [avail[d]] + Decode(Rem(code, f), Remove(avail, d))
  }

  // ---------------------------------------------------------------------
  // Counting lemmas

  lemma {:induction false} CountLessConcat(a: seq<int>, b: seq<int>, v: int)
    ensures CountLess(a + b, v) == CountLess(a, v) + CountLess(b, v)
    decreases |b|
  {
    if b == [] {
      assert a + b == a;
    } else {
      var b' := b[..|b| - 1];
      assert (a + b)[..|a + b| - 1] == a + b';
      CountLessConcat(a, b', v);
    }
  }

  lemma {:induction false} CountLessAllBelow(s: seq<int>, v: int)
    requires forall i :: 0 <= i < |s| ==> s[i] < v
    ensures CountLess(s, v) == |s|
  {
    if s != [] {
      CountLessAllBelow(s[..|s| - 1], v);
    }
  }

  lemma {:induction false} CountLessNoneBelow(s: seq<int>, v: int)
    requires forall i :: 0 <= i < |s| ==> s[i] >= v
    ensures CountLess(s, v) == 0
  {
    if s != [] {
      CountLessNoneBelow(s[..|s| - 1], v);
    }
  }

  lemma CountLessRemove(t: seq<int>, k: nat, v: int)
    requires k < |t|
    ensures CountLess(t, v) == CountLess(Remove(t, k), v) + (if t[k] < v then 1 else 0)
  {
    var a, b := t[..k], t[k + 1..];
    assert t == (a + [t[k]]) + b;
    CountLessConcat(a + [t[k]], b, v);
    assert (a + [t[k]])[..k] == a;
    CountLessConcat(a, b, v);
  }

  /** CountLess depends only on the multiset of entries. */
  lemma {:induction false} CountLessPermutation(s: seq<int>, t: seq<int>, v: int)
    requires multiset(s) == multiset(t)
    ensures CountLess(s, v) == CountLess(t, v)
    decreases |s|
  {
    if s != [] {
      var x := s[|s| - 1];
      var s' := s[..|s| - 1];
      assert s == s' + [x];
      assert x in multiset(t);
      var k :| 0 <= k < |t| && t[k] == x;
      var t' := Remove(t, k);
      RemoveMultiset(t, k);
      CountLessPermutation(s', t', v);
      CountLessRemove(t, k, v);
    }
  }

  /** In a strictly increasing list, the entry at index k has exactly k smaller entries. */
  lemma SortedRank(s: seq<int>, k: nat)
    requires Sorted(s) && k < |s|
    ensures CountLess(s, s[k]) == k
    ensures CountLess(Remove(s, k), s[k]) == k
  {
    var a, b, v := s[..k], s[k + 1..], s[k];
    forall i | 0 <= i < |a| ensures a[i] < v {
      assert a[i] == s[i];
    }
    forall i | 0 <= i < |b| ensures b[i] >= v {
      assert b[i] == s[k + 1 + i];
    }
    CountLessAllBelow(a, v);
    CountLessNoneBelow(b, v);
    CountLessConcat(a, b, v);
    assert Remove(s, k) == a + b;
    CountLessRemove(s, k, v);
  }

  lemma SortedRemove(s: seq<int>, k: nat)
    requires Sorted(s) && k < |s|
    ensures Sorted(Remove(s, k))
  {
    var r := Remove(s, k);
    forall i, j | 0 <= i < j < |r| ensures r[i] < r[j] {
      var i' := if i < k then i else i + 1;
      var j' := if j < k then j else j + 1;
      assert r[i] == s[i'] && r[j] == s[j'];
    }
  }

  lemma HeadCount(p: seq<int>)
    requires p != []
    ensures CountLess(p, p[0]) == CountLess(p[1..], p[0])
  {
    assert p == [p[0]] + p[1..];
    CountLessConcat([p[0]], p[1..], p[0]);
    assert [p[0]][..0] == [];
  }

  // ---------------------------------------------------------------------
  // The bijection

  /** Every code lies in [0, n!): the first digit is at most n-1. */
  lemma {:induction false} CodeBound(p: seq<int>)
    ensures Code(p) < Factorial(|p|)
  {
    if p != [] {
      CodeBound(p[1..]);
      DigitBound(CountLess(p[1..], p[0]), Factorial(|p| - 1), Code(p[1..]), |p|);
    }
  }

  /** A strictly increasing list (in particular the identity) has code 0. */
  lemma {:induction false} SortedCodeZero(p: seq<int>)
    requires Sorted(p)
    ensures Code(p) == 0
  {
    if p != [] {
      CountLessNoneBelow(p[1..], p[0]);
      SortedCodeZero(p[1..]);
    }
  }

  lemma IdentityCodeZero(n: nat)
    ensures Code(Identity(n)) == 0
  {
    SortedCodeZero(Identity(n));
  }

  /** Unfolding Decode once, given the first digit d and the remainder r. */
  lemma DecodeStep(code: nat, avail: seq<int>, d: nat, r: nat)
    requires avail != [] && d < |avail| && r < Factorial(|avail| - 1)
    requires code == Mul(d, Factorial(|avail| - 1)) + r
    ensures code < Factorial(|avail|)
    ensures Decode(code, avail) == [avail[d]] + Decode(r, Remove(avail, d))
  {
    var f := Factorial(|avail| - 1);
    DigitBound(d, f, r, |avail|);
    QuotRemUnique(code, f, d, r);
  }

  /** The first digit of p's code is the index of p[0] in the sorted list. */
  lemma FirstRank(p: seq<int>, avail: seq<int>)
    requires Sorted(avail) && multiset(p) == multiset(avail) && p != []
    ensures CountLess(p[1..], p[0]) < |avail|
    ensures avail[CountLess(p[1..], p[0])] == p[0]
  {
    var x := p[0];
    assert x in multiset(avail) by {
      assert x in multiset(p);
    }
    assert x in avail;
    var k :| 0 <= k < |avail| && avail[k] == x;
    SortedRank(avail, k);
    CountLessPermutation(avail, p, x);
    HeadCount(p);
  }

  /** decode(encode(p)) == p for every arrangement p of a sorted list. */
  lemma {:induction false} DecodeEncode(p: seq<int>, avail: seq<int>)
    requires Sorted(avail) && multiset(p) == multiset(avail)
    ensures |p| == |avail| && Code(p) < Factorial(|avail|)
    ensures Decode(Code(p), avail) == p
    decreases |p|
  {
    assert |p| == |avail| by {
      assert |multiset(p)| == |multiset(avail)|;
    }
    CodeBound(p);
    if p != [] {
      var c := TailArrangement(p, avail);
      DecodeEncode(p[1..], Remove(avail, c));
      DecodeEncodeStep(p, avail, c);
    }
  }

  /** The tail of an arrangement arranges the list without the head's rank. */
  lemma TailArrangement(p: seq<int>, avail: seq<int>) returns (c: nat)
    requires Sorted(avail) && multiset(p) == multiset(avail) && p != []
    ensures c == CountLess(p[1..], p[0]) && c < |avail| && avail[c] == p[0]
    ensures Sorted(Remove(avail, c)) && multiset(p[1..]) == multiset(Remove(avail, c))
  {
    c := CountLess(p[1..], p[0]);
    FirstRank(p, avail);
    SortedRemove(avail, c);
    RemoveMultiset(avail, c);
    assert p == [p[0]] + p[1..];
  }

  lemma DecodeEncodeStep(p: seq<int>, avail: seq<int>, c: nat)
    requires p != [] && |p| == |avail| && c == CountLess(p[1..], p[0]) && c < |avail| && avail[c] == p[0]
    requires Code(p[1..]) < Factorial(|avail| - 1)
    requires Decode(Code(p[1..]), Remove(avail, c)) == p[1..]
    ensures Code(p) < Factorial(|avail|) && Decode(Code(p), avail) == p
  {
    DecodeStep(Code(p), avail, c, Code(p[1..]));
    assert p == [p[0]] + p[1..];
  }

  /** The first digit and the remainder of a code below |avail|!. */
  lemma FirstDigit(code: nat, avail: seq<int>) returns (d: nat, r: nat)
    requires avail != [] && code < Factorial(|avail|)
    ensures d < |avail| && r < Factorial(|avail| - 1)
    ensures code == Mul(d, Factorial(|avail| - 1)) + r
    ensures Decode(code, avail) == [avail[d]] + Decode(r, Remove(avail, d))
  {
    var f := Factorial(|avail| - 1);
    QuotBelow(code, f, |avail|);
    QuotRem(code, f);
    d, r := Quot(code, f), Rem(code, f);
  }

  /** decode yields an arrangement of avail. */
  lemma {:induction false} DecodeArrangement(code: nat, avail: seq<int>)
    requires code < Factorial(|avail|)
    ensures multiset(Decode(code, avail)) == multiset(avail)
    decreases |avail|
  {
    if avail != [] {
      var d, r := FirstDigit(code, avail);
      var rest := Remove(avail, d);
      DecodeArrangement(r, rest);
      RemoveAdds(avail, d);
      ConsArrangement(avail[d], Decode(r, rest), rest, avail);
    }
  }

  /** Putting back the removed entry in front of an arrangement of the rest
      arranges the whole list. */
  lemma ConsArrangement(x: int, t: seq<int>, rest: seq<int>, avail: seq<int>)
    requires multiset(t) == multiset(rest) && multiset(avail) == multiset(rest) + multiset{x}
    ensures multiset([x] + t) == multiset(avail)
  {
  }

  /** encode(decode(code)) == code. */
  lemma {:induction false} EncodeDecode(code: nat, avail: seq<int>)
    requires Sorted(avail) && code < Factorial(|avail|)
    ensures Code(Decode(code, avail)) == code
    decreases |avail|
  {
    if avail != [] {
      var d, r := FirstDigit(code, avail);
      var avail' := Remove(avail, d);
      var tail := Decode(r, avail');
      SortedRemove(avail, d);
      DecodeArrangement(r, avail');
      EncodeDecode(r, avail');
      EncodeDecodeStep(avail, d, r, tail);
      assert Decode(code, avail) == [avail[d]] + tail;
    }
  }

  lemma EncodeDecodeStep(avail: seq<int>, d: nat, r: nat, tail: seq<int>)
    requires Sorted(avail) && d < |avail|
    requires multiset(tail) == multiset(Remove(avail, d)) && Code(tail) == r
    ensures Code([avail[d]] + tail) == Mul(d, Factorial(|avail| - 1)) + r
  {
    var p := [avail[d]] + tail;
    assert p[0] == avail[d] && p[1..] == tail;
    assert |tail| == |avail| - 1 by {
      assert |multiset(tail)| == |multiset(Remove(avail, d))|;
    }
    CountLessPermutation(tail, Remove(avail, d), avail[d]);
    SortedRank(avail, d);
    CodeUnfold(p, d, r, |avail| - 1);
  }

  /** One unfolding of Code, with the digit and the rest's code named. */
  lemma CodeUnfold(p: seq<int>, d: nat, r: nat, k: nat)
    requires |p| == k + 1 && CountLess(p[1..], p[0]) == d && Code(p[1..]) == r
    ensures Code(p) == Mul(d, Factorial(k)) + r
  {
  }

  /** The two directions on the identity list, as used by the phase-2 tables:
      codes of permutations of 0..n-1 are exactly [0, n!). */
  lemma PermutationCodes(p: seq<int>, n: nat)
    requires IsPermutation(p, n)
    ensures |p| == n && Code(p) < Factorial(n)
    ensures Decode(Code(p), Identity(n)) == p
  {
    DecodeEncode(p, Identity(n));
  }

  lemma CodePermutations(code: nat, n: nat)
    requires code < Factorial(n)
    ensures IsPermutation(Decode(code, Identity(n)), n)
    ensures Code(Decode(code, Identity(n))) == code
  {
    DecodeArrangement(code, Identity(n));
    EncodeDecode(code, Identity(n));
  }

  // ---------------------------------------------------------------------
  // The source's imperative routines

  /** The source's factorial: an accumulator loop (1 for n <= 1). */
  method ComputeFactorial(n: int) returns (acc: int)
    ensures n >= 0 ==> acc == Factorial(n)
    ensures n < 0 ==> acc == 1
  {
    acc := 1;
    var i := 2;
    while i <= n
      invariant 2 <= i && (i <= n + 1 || i == 2)
      invariant acc == Factorial(i - 1)
    {
      MulIsProduct(i, acc);
      acc := acc * i;
      i := i + 1;
    }
    if n <= 1 {
      assert i == 2 && Factorial(1) == 1;
    } else {
      assert i - 1 == n;
    }
  }

  /** Java integer division, which truncates toward zero. */
  function JavaDiv(a: int, b: int): (q: int)
    requires b > 0
  {
    if a >= 0 then Quot(a, b) else -(Quot(-a, b) as int)
  }

  /** Java remainder, which takes the sign of the dividend. */
  function JavaRem(a: int, b: int): (r: int)
    requires b > 0
  {
    if a >= 0 then Rem(a, b) else -(Rem(-a, b) as int)
  }

  /** One Horner step: code * k! + Code(q) == (code * k + smaller) * (k-1)! + Code(q[1..]). */
  lemma StepCode(q: seq<int>, code: nat, k: nat, smaller: nat)
    requires |q| == k >= 1 && smaller == CountLess(q[1..], q[0])
    ensures Mul(code, Factorial(k)) + Code(q)
         == Mul(Mul(code, k) + smaller, Factorial(k - 1)) + Code(q[1..])
  {
    var f := Factorial(k - 1);
    assert Factorial(k) == Mul(k, f);
    assert Code(q) == Mul(smaller, f) + Code(q[1..]);
    MulAssociates(code, k, f);
    MulDistributes(Mul(code, k), smaller, f);
  }

  /** What getLehmerCode has accumulated after i positions of p. */
  ghost predicate HornerInv(p: seq<int>, i: int, code: int)
  {
    0 <= i <= |p| && code >= 0 && Mul(code, Factorial(|p| - i)) + Code(p[i..]) == Code(p)
  }

  /** CountLess over the index range [lo, hi) of p, as the inner loop scans it. */
  function CountLessIn(p: seq<int>, lo: nat, hi: nat, v: int): nat
    requires lo <= hi <= |p|
    decreases hi
  {
    if hi == lo then 0 else CountLessIn(p, lo, hi - 1, v) + (if p[hi - 1] < v then 1 else 0)
  }

  lemma {:induction false} CountLessInSlice(p: seq<int>, lo: nat, hi: nat, v: int)
    requires lo <= hi <= |p|
    ensures CountLessIn(p, lo, hi, v) == CountLess(p[lo..hi], v)
  {
    if hi > lo {
      CountLessInSlice(p, lo, hi - 1, v);
      assert p[lo..hi][..hi - lo - 1] == p[lo..hi - 1];
    }
  }

  lemma HornerInvStep(p: seq<int>, n: nat, i: nat, code: nat, smaller: nat)
    requires n == |p| && HornerInv(p, i, code) && i < n && smaller == CountLessIn(p, i + 1, n, p[i])
    ensures HornerInv(p, i + 1, code * (n - i) + smaller)
  {
    var q, k := p[i..], n - i;
    assert q[1..] == p[i + 1..n] == p[i + 1..];
    assert smaller == CountLess(q[1..], q[0]) by {
      CountLessInSlice(p, i + 1, n, p[i]);
    }
    StepCode(q, code, k, smaller);
    MulIsProduct(code, k);
  }

  /** The inner loop of getLehmerCode: how many entries after position i
      (and before n) are smaller than the entry at i. */
  method CountSmallerAfter(perm: array<int>, n: nat, i: nat) returns (smaller: nat)
    requires i < n <= perm.Length
    ensures smaller == CountLessIn(perm[..n], i + 1, n, perm[i])
  {
    ghost var p := perm[..n];
    smaller := 0;
    var j := i + 1;
    while j < n
      invariant i + 1 <= j <= n
      invariant smaller == CountLessIn(p, i + 1, j, p[i])
    {
      if perm[j] < perm[i] {
        smaller := smaller + 1;
      }
      j := j + 1;
    }
  }

  /** getLehmerCode: for each position, count the later entries that are
      smaller and accumulate code := code * (n - i) + count. */
  method GetLehmerCode(perm: array<int>, n: nat) returns (code: int)
    requires n <= perm.Length
    ensures code == Code(perm[..n])
  {
    ghost var p := perm[..n];
    code := 0;
    var i := 0;
    while i < n
      invariant HornerInv(p, i, code)
    {
      var smaller := CountSmallerAfter(perm, n, i);
      HornerInvStep(p, n, i, code, smaller);
      code := code * (n - i) + smaller;
      i := i + 1;
    }
    assert p[n..] == [];
    MulOne(code);
  }

  /** One step of the source's decoding on a valid code agrees with one
      unfolding of Decode. */
  lemma ValidDigit(c: int, fact: nat, numbers: seq<int>)
    requires |numbers| >= 1 && fact == Factorial(|numbers| - 1)
    requires Sorted(numbers) && 0 <= c < Factorial(|numbers|)
    ensures 0 <= JavaDiv(c, fact) < |numbers| && 0 <= JavaRem(c, fact) < fact
    ensures Decode(c, numbers) == [numbers[JavaDiv(c, fact)]]
      + Decode(JavaRem(c, fact), Remove(numbers, JavaDiv(c, fact)))
    ensures Sorted(Remove(numbers, JavaDiv(c, fact)))
  {
    QuotBelow(c, fact, |numbers|);
    SortedRemove(numbers, Quot(c, fact));
  }

  /** A code at or above k! yields a first digit outside a list of k. */
  lemma LargeDigit(c: int, fact: nat, k: nat)
    requires k >= 1 && fact == Factorial(k - 1) && c >= Factorial(k)
    ensures JavaDiv(c, fact) >= k
  {
    QuotAtLeast(c, fact, k);
  }

  /** A negative code stays negative while its digits are 0, and its last
      digit (by 0! == 1) is negative. */
  lemma NegativeDigit(c: int, fact: nat)
    requires c < 0 && fact >= 1
    ensures JavaDiv(c, fact) == 0 ==> JavaRem(c, fact) == c
    ensures fact == 1 ==> JavaDiv(c, fact) == c
  {
    QuotRem(-c, fact);
    if fact == 1 {
      MulIsProduct(-c, 1);
      QuotRemUnique(-c, 1, -c, 0);
    }
  }

  /** What decodeLehmer knows after i steps: prefix holds the entries
      placed so far, numbers the entries still available and c the rest of
      the code. */
  ghost predicate DecodeInv(code: int, n: nat, i: nat, c: int, numbers: seq<int>, prefix: seq<int>)
  {
    && i <= n && |numbers| == n - i && |prefix| == i
    && (code < 0 && n > 0 ==> c < 0 && i < n)
    && (code >= Factorial(n) ==> i == 0 && c == code)
    && (0 <= code < Factorial(n) ==>
          Sorted(numbers) && 0 <= c < Factorial(|numbers|)
          && prefix + Decode(c, numbers) == Decode(code, Identity(n)))
  }

  /** One iteration of decodeLehmer whose digit indexes the list keeps
      DecodeInv. */
  lemma DecodeInvStep(code: int, n: nat, i: nat, c: int, numbers: seq<int>, prefix: seq<int>, fact: nat)
    requires i < n && DecodeInv(code, n, i, c, numbers, prefix) && fact == Factorial(n - 1 - i)
    requires 0 <= JavaDiv(c, fact) < |numbers|
    ensures DecodeInv(code, n, i + 1, JavaRem(c, fact), Remove(numbers, JavaDiv(c, fact)),
                      prefix + [numbers[JavaDiv(c, fact)]])
  {
    var d := JavaDiv(c, fact);
    if 0 <= code < Factorial(n) {
      ValidDigit(c, fact, numbers);
      assert prefix + [numbers[d]] + Decode(JavaRem(c, fact), Remove(numbers, d))
        == prefix + Decode(c, numbers);
    } else if code < 0 {
      NegativeDigit(c, fact);
    } else {
      LargeDigit(c, fact, n);
    }
  }

  /** A digit outside the list is only met with an invalid code. */
  lemma DecodeInvBad(code: int, n: nat, i: nat, c: int, numbers: seq<int>, prefix: seq<int>, fact: nat)
    requires i < n && DecodeInv(code, n, i, c, numbers, prefix) && fact == Factorial(n - 1 - i)
    requires !(0 <= JavaDiv(c, fact) < |numbers|)
    ensures !(0 <= code < Factorial(n))
  {
    if 0 <= code < Factorial(n) {
      ValidDigit(c, fact, numbers);
    }
  }

  lemma DecodeInvInit(code: int, n: nat)
    ensures DecodeInv(code, n, 0, code, Identity(n), [])
  {
    if 0 <= code < Factorial(n) {
      assert [] + Decode(code, Identity(n)) == Decode(code, Identity(n));
    }
  }

  lemma DecodeInvExit(code: int, n: nat, c: int, numbers: seq<int>, prefix: seq<int>)
    requires DecodeInv(code, n, n, c, numbers, prefix)
    ensures n == 0 || 0 <= code < Factorial(n)
    ensures 0 <= code < Factorial(n) ==> prefix == Decode(code, Identity(n))
  {
    if 0 <= code < Factorial(n) {
      assert numbers == [] && Decode(c, numbers) == [];
      assert prefix + [] == prefix;
    }
  }

  /** decodeLehmer: repeatedly take digit = code / (n-1-i)! from the list of
      numbers still available. The source throws when a digit indexes outside
      that list, which happens exactly when n > 0 and code lies outside
      [0, n!); ok reports that case. */
  method DecodeLehmer(code: int, n: nat) returns (ok: bool, perm: array<int>)
    ensures perm.Length == n
    ensures ok <==> (n == 0 || 0 <= code < Factorial(n))
    ensures ok && n > 0 ==> perm[..] == Decode(code, Identity(n))
  {
    perm := new int[n];
    var numbers := Identity(n);
    var c := code;
    var i := 0;
    ghost var placed: seq<int> := [];
    DecodeInvInit(code, n);
    while i < n
      invariant i <= n && perm[..i] == placed
      invariant DecodeInv(code, n, i, c, numbers, placed)
    {
      var fact := ComputeFactorial(n - 1 - i);
      var digit := JavaDiv(c, fact);
      var rem := JavaRem(c, fact);
      if digit < 0 || digit >= |numbers| {
        DecodeInvBad(code, n, i, c, numbers, placed, fact);
        return false, perm;
      }
      DecodeInvStep(code, n, i, c, numbers, placed, fact);
      perm[i] := numbers[digit];
      placed := placed + [numbers[digit]];
      numbers := Remove(numbers, digit);
      c := rem;
      i := i + 1;
    }
    assert perm[..] == placed;
    DecodeInvExit(code, n, c, numbers, placed);
    ok := true;
  }
}
