// The coordinates the pruning tables are indexed by, and their move
// transitions: the corner twists as a base-3 number of seven digits
// (0..2186), the edge flips as a base-2 number of eleven digits (0..2047),
// and the corner and U/D-edge permutations as Lehmer codes (0..40319).
// The last twist (flip) is not stored: it is recovered from the others,
// since the twists of a solvable cube sum to a multiple of 3 (the flips to
// a multiple of 2).

module Coordinates {
  import opened Lehmer
  import opened ScatterRows
  import opened MoveTables

  // ---------------------------------------------------------------------
  // Positional notation

  /** b to the power k. */
  function Pow(b: nat, k: nat): (r: nat)
    requires b > 0
    ensures r >= 1
  {
    if k == 0 then 1 else Mul(Pow(b, k - 1), b)
  }

  lemma PowStep(b: nat, k: nat)
    requires b > 0
    ensures Pow(b, k + 1) == Pow(b, k) * b
  {
    MulIsProduct(Pow(b, k), b);
  }

  /** The sizes of the two orientation coordinates. */
  lemma PowValues()
    ensures Pow(3, 7) == 2187 && Pow(2, 11) == 2048
  {
    PowStep(3, 0); PowStep(3, 1); PowStep(3, 2); PowStep(3, 3);
    PowStep(3, 4); PowStep(3, 5); PowStep(3, 6);
    PowStep(2, 0); PowStep(2, 1); PowStep(2, 2); PowStep(2, 3); PowStep(2, 4);
    PowStep(2, 5); PowStep(2, 6); PowStep(2, 7); PowStep(2, 8); PowStep(2, 9);
    PowStep(2, 10);
  }

  /** The k lowest base-b digits of x, most significant first: what the
      loop taking digit i = temp % b, then temp /= b, for i from k-1 down
      to 0, leaves behind. */
  function Digits(x: nat, k: nat, b: nat): (d: seq<int>)
    requires b > 0
    ensures |d| == k && Bounded(d, b)
    decreases k
  {
    if k == 0 then [] else Digits(Quot(x, b), k - 1, b) + [Rem(x, b)]
  }

  /** Horner evaluation of base-b digits: state := state * b + digit. */
  function Pack(d: seq<int>, b: nat): nat
    requires Bounded(d, b)
  {
    if d == [] then 0 else Mul(Pack(d[..|d| - 1], b), b) + d[|d| - 1]
  }

  /** k digits pack into a number below b^k. */
  lemma {:induction false} PackBound(d: seq<int>, b: nat)
    requires b > 0 && Bounded(d, b)
    ensures Pack(d, b) < Pow(b, |d|)
    decreases |d|
  {
    if d != [] {
      var p := d[..|d| - 1];
      PackBound(p, b);
      DigitBound(Pack(p, b), b, d[|d| - 1], Pow(b, |p|));
    }
  }

  /** Unpacking what was packed gives the digits back. */
  lemma {:induction false} DigitsPack(d: seq<int>, b: nat)
    requires b > 0 && Bounded(d, b)
    ensures Digits(Pack(d, b), |d|, b) == d
    decreases |d|
  {
    if d != [] {
      var p, last := d[..|d| - 1], d[|d| - 1];
      var x := Pack(d, b);
      assert Quot(x, b) == Pack(p, b) && Rem(x, b) == last by {
        QuotRemUnique(x, b, Pack(p, b), last);
      }
      DigitsPack(p, b);
      assert Digits(x, |d|, b) == Digits(Quot(x, b), |p|, b) + [Rem(x, b)];
      assert d == p + [last];
    }
  }

  /** Packing the k digits of a number below b^k gives the number back. */
  lemma {:induction false} PackDigits(x: nat, k: nat, b: nat)
    requires b > 0 && x < Pow(b, k)
    ensures Pack(Digits(x, k, b), b) == x
    decreases k
  {
    if k > 0 {
      var d := Digits(x, k, b);
      QuotBelow(x, b, Pow(b, k - 1));
      PackDigits(Quot(x, b), k - 1, b);
      assert d[..k - 1] == Digits(Quot(x, b), k - 1, b);
      QuotRem(x, b);
    }
  }

  // ---------------------------------------------------------------------
  // Remainders of sums

  lemma {:induction false} RemShift(q: nat, z: nat, b: nat)
    requires b > 0
    ensures Rem(Mul(q, b) + z, b) == Rem(z, b)
    decreases q
  {
    if q > 0 {
      RemShift(q - 1, z, b);
      assert Mul(q, b) + z - b == Mul(q - 1, b) + z;
    }
  }

  /** The remainder of a sum depends only on the remainders of its terms. */
  lemma RemAdd(x: nat, y: nat, b: nat)
    requires b > 0
    ensures Rem(x + y, b) == Rem(Rem(x, b) + Rem(y, b), b)
  {
    QuotRem(x, b);
    QuotRem(y, b);
    MulDistributes(Quot(x, b), Quot(y, b), b);
    RemShift(Quot(x, b) + Quot(y, b), Rem(x, b) + Rem(y, b), b);
  }

  /** The remainder of the sum of a row of non-negative entries. */
  function SumMod(v: seq<int>, b: nat): (r: nat)
    requires b > 0 && forall i :: 0 <= i < |v| ==> v[i] >= 0
    ensures r < b
  {
    SumNonNegative(v);
    Rem(Sum(v), b)
  }

  // ---------------------------------------------------------------------
  // Orientation vectors and their coordinates

  /** The stored digits complete to a multiple of b with (b - sum % b) % b. */
  function Completion(d: seq<int>, b: nat): (c: nat)
    requires b > 0 && Bounded(d, b)
    ensures c < b
  {
    Rem(b - SumMod(d, b), b)
  }

  /** The completion is the one last digit that brings the sum to a multiple of b. */
  lemma CompletionUnique(d: seq<int>, c: nat, b: nat)
    requires b > 0 && Bounded(d, b) && c < b
    ensures SumMod(d + [c], b) == 0 <==> c == Completion(d, b)
  {
    var e := d + [c];
    assert e[..|e| - 1] == d;
    SumNonNegative(d);
    var q, r := Quot(Sum(d), b), Rem(Sum(d), b);
    QuotRem(Sum(d), b);
    RemShift(q, r + c, b);
    assert Sum(e) == Mul(q, b) + (r + c);
    if r + c < b {
      assert Rem(r + c, b) == r + c;
      if r == 0 {
        assert Rem(b - 0, b) == Rem(0, b) == 0;
      }
    } else {
      assert Rem(r + c, b) == Rem(r + c - b, b) == r + c - b;
      assert Rem(b - r, b) == b - r;
    }
  }

  /** The n orientations a coordinate stands for: n - 1 base-b digits and
      the completion. */
  function Orientations(s: nat, b: nat, n: nat): (o: seq<int>)
    requires b > 0 && n > 0
    ensures |o| == n && Bounded(o, b)
  {
    var d := Digits(s, n - 1, b);
    d + [Completion(d, b)]
  }

  /** n orientations in [0, b) summing to a multiple of b: the orientations
      of a solvable cube. */
  ghost predicate Valid(v: seq<int>, b: nat, n: nat)
    requires b > 0
  {
    |v| == n && Bounded(v, b) && SumMod(v, b) == 0
  }

  /** Every coordinate stands for a valid orientation vector ... */
  lemma OrientationsValid(s: nat, b: nat, n: nat)
    requires b > 0 && n > 0
    ensures Valid(Orientations(s, b, n), b, n)
  {
    var d := Digits(s, n - 1, b);
    CompletionUnique(d, Completion(d, b), b);
  }

  /** ... from which the coordinate is read back ... */
  lemma PackOrientations(s: nat, b: nat, n: nat)
    requires b > 0 && n > 0 && s < Pow(b, n - 1)
    ensures Pack(Orientations(s, b, n)[..n - 1], b) == s
  {
    assert Orientations(s, b, n)[..n - 1] == Digits(s, n - 1, b);
    PackDigits(s, n - 1, b);
  }

  /** ... and every valid vector is the one its packed first n - 1 entries stand for. */
  lemma OrientationsPack(v: seq<int>, b: nat, n: nat)
    requires b > 0 && n > 0 && Valid(v, b, n)
    ensures Pack(v[..n - 1], b) < Pow(b, n - 1)
    ensures Orientations(Pack(v[..n - 1], b), b, n) == v
  {
    var d := v[..n - 1];
    PackBound(d, b);
    DigitsPack(d, b);
    assert v == d + [v[n - 1]];
    CompletionUnique(d, v[n - 1], b);
  }

  // ---------------------------------------------------------------------
  // The source's edge completion: the exclusive or of the eleven flips

  /** Exclusive or of two bits. */
  function Xor(a: int, c: int): (r: int)
    requires 0 <= a < 2 && 0 <= c < 2
    ensures 0 <= r < 2
  {
    if a == c then 0 else 1
  }

  function XorAll(d: seq<int>): (r: int)
    requires Bounded(d, 2)
    ensures 0 <= r < 2
  {
    if d == [] then 0 else Xor(XorAll(d[..|d| - 1]), d[|d| - 1])
  }

  /** The exclusive or of bits is the parity of their sum. */
  lemma {:induction false} XorAllParity(d: seq<int>)
    requires Bounded(d, 2)
    ensures XorAll(d) == SumMod(d, 2)
    decreases |d|
  {
    if d != [] {
      var p, x := d[..|d| - 1], d[|d| - 1];
      XorAllParity(p);
      SumNonNegative(p);
      RemAdd(Sum(p), x, 2);
      assert Rem(x, 2) == x;
    }
  }

  /** The eleven stored flips and the exclusive or of them, as the source
      decodes an edge orientation coordinate. */
  function EdgeOrientations(s: nat): (o: seq<int>)
    ensures |o| == 12 && Bounded(o, 2)
  {
    var d := Digits(s, 11, 2);
    d + [Rem(XorAll(d), 2)]
  }

  /** The exclusive or completes the flips to an even total: it is the
      general completion for b = 2. */
  lemma XorCompletion(d: seq<int>)
    requires Bounded(d, 2)
    ensures Rem(XorAll(d), 2) == Completion(d, 2)
  {
    XorAllParity(d);
    assert Rem(XorAll(d), 2) == XorAll(d);
    if SumMod(d, 2) == 0 {
      assert Rem(2 - 0, 2) == Rem(0, 2) == 0;
    } else {
      assert Rem(2 - 1, 2) == 1;
    }
  }

  lemma EdgeOrientationsParity(s: nat)
    ensures EdgeOrientations(s) == Orientations(s, 2, 12)
  {
    var d := Digits(s, 11, 2);
    XorCompletion(d);
    assert EdgeOrientations(s) == d + [Rem(XorAll(d), 2)];
  }

  // ---------------------------------------------------------------------
  // Orientation transitions

  /** Each piece's orientation plus the twist the move gives it, mod b. */
  function Twisted(v: seq<int>, ori: seq<int>, b: nat): (r: seq<int>)
    requires b > 0 && |ori| == |v|
    requires forall c :: 0 <= c < |v| ==> v[c] >= 0 && ori[c] >= 0
    ensures |r| == |v| && Bounded(r, b)
  {
    seq(|v|, c requires 0 <= c < |v| => Rem(v[c] + ori[c], b))
  }

  /** The transition: twist every piece, send piece c to slot row[c]
      (into a new array of zeros), and pack the first n - 1 slots. */
  function OrientNext(o: seq<int>, row: seq<int>, ori: seq<int>, b: nat): (r: nat)
    requires b > 0 && |o| > 0 && Bounded(o, b) && InRange(row, |o|) && |ori| == |o|
    requires forall c :: 0 <= c < |o| ==> ori[c] >= 0
    ensures r < Pow(b, |o| - 1)
  {
    var v := Scatter(Twisted(o, ori, b), row);
    ScatterPrefixBounded(Twisted(o, ori, b), row, |row|, b);
    assert Bounded(v[..|o| - 1], b);
    PackBound(v[..|o| - 1], b);
    Pack(v[..|o| - 1], b)
  }

  /** applyCornerOrientMove on a coordinate. */
  function CornerOrientNext(T: Tables, s: nat, m: nat): (r: nat)
    requires WellFormed(T) && m < MOVE_COUNT
    ensures r < 2187
  {
    PowValues();
    OrientNext(Orientations(s, 3, 8), T.corner[m], T.cornerOri[m], 3)
  }

  /** applyEdgeOrientMove on a coordinate. */
  function EdgeOrientNext(T: Tables, s: nat, m: nat): (r: nat)
    requires WellFormed(T) && m < MOVE_COUNT
    ensures r < 2048
  {
    PowValues();
    EdgeOrientationsParity(s);
    OrientNext(EdgeOrientations(s), T.edge[m], T.edgeOri[m], 2)
  }

  lemma RemRem(a: nat, b: nat)
    requires b > 0
    ensures Rem(Rem(a, b), b) == Rem(a, b)
  {
  }

  /** Adding one more twisted piece keeps the running congruence. */
  lemma RemStep(x: nat, y: nat, z: nat, a1: nat, a2: nat, b: nat, st: nat, sv: nat, so: nat)
    requires b > 0 && Rem(z, b) == Rem(x + y, b)
    requires st == z + Rem(a1 + a2, b) && sv == x + a1 && so == y + a2
    ensures Rem(st, b) == Rem(sv + so, b)
  {
    RemAdd(z, Rem(a1 + a2, b), b);
    RemRem(a1 + a2, b);
    RemAdd(x + y, a1 + a2, b);
  }

  predicate NonNegativePair(v: seq<int>, ori: seq<int>)
  {
    |ori| == |v| && forall c :: 0 <= c < |v| ==> v[c] >= 0 && ori[c] >= 0
  }

  /** The congruence for the twisted rows, with every sum known non-negative. */
  ghost predicate TwistedCongruent(v: seq<int>, ori: seq<int>, b: nat)
    requires b > 0 && NonNegativePair(v, ori)
  {
    Sum(v) >= 0 && Sum(ori) >= 0 && Sum(Twisted(v, ori, b)) >= 0 &&
    Rem(Sum(Twisted(v, ori, b)), b) == Rem(Sum(v) + Sum(ori), b)
  }

  lemma SumTwistedStep(v: seq<int>, ori: seq<int>, b: nat)
    requires b > 0 && NonNegativePair(v, ori) && v != []
    requires TwistedCongruent(v[..|v| - 1], ori[..|v| - 1], b)
    ensures TwistedCongruent(v, ori, b)
  {
    var t := Twisted(v, ori, b);
    SumNonNegative(t);
    var k := |v| - 1;
    var v', ori' := v[..k], ori[..k];
    assert t[..k] == Twisted(v', ori', b);
    assert Sum(t) == Sum(t[..k]) + Rem(v[k] + ori[k], b);
    RemStep(Sum(v'), Sum(ori'), Sum(t[..k]), v[k], ori[k], b, Sum(t), Sum(v), Sum(ori));
  }

  lemma {:induction false} SumTwistedRaw(v: seq<int>, ori: seq<int>, b: nat)
    requires b > 0 && NonNegativePair(v, ori)
    ensures TwistedCongruent(v, ori, b)
    decreases |v|
  {
    if v != [] {
      SumTwistedRaw(v[..|v| - 1], ori[..|v| - 1], b);
      SumTwistedStep(v, ori, b);
    } else {
      assert Twisted(v, ori, b) == [] && ori == [];
    }
  }

  /** Twisting every piece adds the move's twists to the total, mod b. */
  lemma SumTwisted(v: seq<int>, ori: seq<int>, b: nat)
    requires b > 0 && |ori| == |v|
    requires forall c :: 0 <= c < |v| ==> v[c] >= 0 && ori[c] >= 0
    ensures SumMod(Twisted(v, ori, b), b) == Rem(SumMod(v, b) + SumMod(ori, b), b)
  {
    SumTwistedRaw(v, ori, b);
    RemAdd(Sum(v), Sum(ori), b);
  }

  /** The transition agrees with the cubie-level move: when the move sends
      the pieces to distinct slots and its twists sum to a multiple of b,
      the new coordinate stands for exactly the twisted, rearranged
      orientations. In particular the dropped last orientation is never
      lost. */
  lemma OrientNextCommutes(o: seq<int>, row: seq<int>, ori: seq<int>, b: nat)
    requires b > 0 && |o| > 0 && Valid(o, b, |o|) && IsBijection(row, |o|) && |ori| == |o|
    requires forall c :: 0 <= c < |o| ==> ori[c] >= 0
    requires SumMod(ori, b) == 0
    ensures Orientations(OrientNext(o, row, ori, b), b, |o|) == Scatter(Twisted(o, ori, b), row)
  {
    var n := |o|;
    var t := Twisted(o, ori, b);
    var v := Scatter(t, row);
    ScatterPrefixBounded(t, row, n, b);
    SumTwisted(o, ori, b);
    assert Rem(0 + 0, b) == 0;
    ScatterMultiset(t, row);
    SumRearranged(v, t);
    assert Valid(v, b, n);
    OrientationsPack(v, b, n);
  }

  /** A move that leaves every piece in place untwisted leaves the
      coordinate as it was. */
  lemma OrientNextIdentity(s: nat, b: nat, n: nat, ori: seq<int>)
    requires b > 0 && n > 0 && s < Pow(b, n - 1)
    requires |ori| == n && forall c :: 0 <= c < n ==> ori[c] == 0
    ensures OrientNext(Orientations(s, b, n), Identity(n), ori, b) == s
  {
    var o := Orientations(s, b, n);
    var t := Twisted(o, ori, b);
    forall c | 0 <= c < n ensures t[c] == o[c] {
      assert Rem(o[c] + 0, b) == o[c];
    }
    assert t == o;
    ScatterIdentity(t);
    PackOrientations(s, b, n);
  }

  // ---------------------------------------------------------------------
  // Permutation transitions

  /** applyCornerPermMove / applyEdgePermMove on a coordinate: decode the
      Lehmer code into the pieces of the n slots, send the piece in slot c
      to slot row[c], re-encode. */
  function PermNext(row: seq<int>, s: nat): nat
    requires InRange(row, |row|) && s < Factorial(|row|)
  {
    Code(Scatter(Decode(s, Identity(|row|)), row))
  }

  /** Through a row that sends the pieces to distinct slots, the new code
      is again a permutation code, and stands for the rearranged pieces. */
  lemma PermNextDecodes(row: seq<int>, s: nat)
    requires IsBijection(row, |row|) && s < Factorial(|row|)
    ensures PermNext(row, s) < Factorial(|row|)
    ensures Decode(PermNext(row, s), Identity(|row|)) == Scatter(Decode(s, Identity(|row|)), row)
  {
    var n := |row|;
    var p := Decode(s, Identity(n));
    CodePermutations(s, n);
    ScatterMultiset(p, row);
    PermutationCodes(Scatter(p, row), n);
  }

  /** Such a row moves distinct codes to distinct codes. */
  lemma PermNextInjective(row: seq<int>, s: nat, t: nat)
    requires IsBijection(row, |row|) && s < Factorial(|row|) && t < Factorial(|row|)
    requires PermNext(row, s) == PermNext(row, t)
    ensures s == t
  {
    var n := |row|;
    PermNextDecodes(row, s);
    PermNextDecodes(row, t);
    ScatterInjective(Decode(s, Identity(n)), Decode(t, Identity(n)), row);
    CodePermutations(s, n);
    CodePermutations(t, n);
  }

  /** The identity row leaves the code as it was. */
  lemma PermNextIdentity(n: nat, s: nat)
    requires s < Factorial(n)
    ensures InRange(Identity(n), n) && PermNext(Identity(n), s) == s
  {
    ScatterIdentity(Decode(s, Identity(n)));
    CodePermutations(s, n);
  }

  /** Whatever the row, the new code is the code of |row| pieces. */
  lemma PermNextBound(row: seq<int>, s: nat)
    requires InRange(row, |row|) && s < Factorial(|row|)
    ensures PermNext(row, s) < Factorial(|row|)
  {
    CodeBound(Scatter(Decode(s, Identity(|row|)), row));
  }

  lemma FactorialEight()
    ensures Factorial(8) == 40320
  {
    MulIsProduct(2, Factorial(1));
    MulIsProduct(3, Factorial(2));
    MulIsProduct(4, Factorial(3));
    MulIsProduct(5, Factorial(4));
    MulIsProduct(6, Factorial(5));
    MulIsProduct(7, Factorial(6));
    MulIsProduct(8, Factorial(7));
  }

  // ---------------------------------------------------------------------
  // The source's transitions

  /** temp's last k base-b digits followed by the digits already stored. */
  lemma DigitsUnfold(x: nat, k: nat, b: nat, tail: seq<int>)
    requires b > 0 && k > 0
    ensures Digits(x, k, b) + tail == Digits(Quot(x, b), k - 1, b) + ([Rem(x, b)] + tail)
  {
  }

  /** The first loop of both orientation transitions: digit i of the
      state, for i from k-1 down to 0, is temp % b, then temp /= b. */
  method UnpackDigits(state: nat, k: nat, b: nat, a: array<int>)
    requires b > 0 && k <= a.Length
    modifies a
    ensures a[..k] == Digits(state, k, b) && a[k..] == old(a[k..])
  {
    var temp := state;
    var i := k - 1;
    while i >= 0
      invariant -1 <= i <= k - 1 && temp >= 0
      invariant Digits(state, k, b) == Digits(temp, i + 1, b) + a[i + 1..k]
      invariant a[k..] == old(a[k..])
    {
      QuotRemOfDiv(temp, b);
      DigitsUnfold(temp, i + 1, b, a[i + 1..k]);
      a[i] := temp % b;
      assert a[i..k] == [a[i]] + a[i + 1..k];
      temp := temp / b;
      i := i - 1;
    }
  }

  /** The middle loop of both orientation transitions: piece c, with its
      twist added mod b, goes to slot row[c] of a new array of zeros. */
  method MoveTwisted(a: array<int>, row: seq<int>, ori: seq<int>, b: nat) returns (moved: array<int>)
    requires b > 0 && InRange(row, a.Length) && |ori| == a.Length
    requires forall c :: 0 <= c < a.Length ==> a[c] >= 0 && ori[c] >= 0
    ensures fresh(moved) && moved[..] == Scatter(Twisted(a[..], ori, b), row)
  {
    ghost var tw := Twisted(a[..], ori, b);
    moved := new int[a.Length](_ => 0);
    assert moved[..] == ScatterPrefix(tw, row, 0);
    for c := 0 to a.Length
      invariant moved[..] == ScatterPrefix(tw, row, c)
    {
      var target := row[c];
      QuotRemOfDiv(a[c] + ori[c], b);
      moved[target] := (a[c] + ori[c]) % b;
    }
  }

  /** The last loop of both orientation transitions: state := state * b +
      digit over the first k slots. */
  method PackPrefix(a: array<int>, k: nat, b: nat) returns (x: int)
    requires k <= a.Length && Bounded(a[..k], b)
    ensures x == Pack(a[..k], b)
  {
    x := 0;
    for j := 0 to k
      invariant x == Pack(a[..j], b)
    {
      MulIsProduct(x, b);
      assert a[..j + 1][..j] == a[..j];
      x := x * b + a[j];
    }
  }

  /** The source's completion (b - sum % b) % b, in Dafny's arithmetic. */
  lemma CompletionOfSum(d: seq<int>, b: nat, sum: int)
    requires b > 0 && Bounded(d, b) && sum == Sum(d)
    ensures sum >= 0 && (b - sum % b) % b == Completion(d, b)
  {
    SumNonNegative(d);
    QuotRemOfDiv(sum, b);
    QuotRemOfDiv(b - sum % b, b);
  }

  /** applyCornerOrientMove: read the seven stored twists, complete the
      eighth, move and twist every corner into a new array, and pack its
      first seven slots again. */
  method ApplyCornerOrientMove(T: Tables, state: nat, move: nat) returns (newState: int)
    requires WellFormed(T) && move < MOVE_COUNT
    ensures newState == CornerOrientNext(T, state, move)
  {
    var co := new int[8](_ => 0);
    UnpackDigits(state, 7, 3, co);
    ghost var d := co[..7];
    var sum := Sum(co[..7]);
    CompletionOfSum(d, 3, sum);
    co[7] := (3 - sum % 3) % 3;
    ghost var o := co[..];
    assert o == Orientations(state, 3, 8) by {
      assert o == d + [co[7]];
    }
    ghost var row, ori := T.corner[move], T.cornerOri[move];
    var newCO := MoveTwisted(co, T.corner[move], T.cornerOri[move], 3);
    ghost var v := newCO[..];
    ScatterPrefixBounded(Twisted(o, ori, 3), row, 8, 3);
    assert v[..7] == newCO[..7];
    newState := PackPrefix(newCO, 7, 3);
    assert newState == OrientNext(o, row, ori, 3);
  }

  /** applyEdgeOrientMove: read the eleven stored flips, complete the
      twelfth as the exclusive or of the others, move and flip every edge
      into a new array, and pack its first eleven slots again. */
  method ApplyEdgeOrientMove(T: Tables, state: nat, move: nat) returns (newState: int)
    requires WellFormed(T) && move < MOVE_COUNT
    ensures newState == EdgeOrientNext(T, state, move)
  {
    var eo := new int[12](_ => 0);
    UnpackDigits(state, 11, 2, eo);
    ghost var d := eo[..11];
    var parity := XorAll(eo[..11]);
    QuotRemOfDiv(parity, 2);
    eo[11] := parity % 2;
    ghost var o := eo[..];
    assert o == EdgeOrientations(state) by {
      assert o == d + [eo[11]];
    }
    ghost var row, ori := T.edge[move], T.edgeOri[move];
    var newEO := MoveTwisted(eo, T.edge[move], T.edgeOri[move], 2);
    ghost var v := newEO[..];
    ScatterPrefixBounded(Twisted(o, ori, 2), row, 12, 2);
    assert v[..11] == newEO[..11];
    newState := PackPrefix(newEO, 11, 2);
    assert newState == OrientNext(o, row, ori, 2);
  }

  /** The middle loop of both permutation transitions: the piece in slot c
      goes to slot row[c] of a new array of zeros. */
  method MovePieces(a: array<int>, row: seq<int>) returns (moved: array<int>)
    requires InRange(row, a.Length)
    ensures fresh(moved) && moved[..] == Scatter(a[..], row)
  {
    moved := new int[a.Length](_ => 0);
    assert moved[..] == ScatterPrefix(a[..], row, 0);
    for c := 0 to a.Length
      invariant moved[..] == ScatterPrefix(a[..], row, c)
    {
      var dest := row[c];
      moved[dest] := a[c];
    }
  }

  /** applyCornerPermMove and applyEdgePermMove: decode the Lehmer code of
      the eight pieces, move them through the row, re-encode. The source
      only passes codes of permutations of the row's eight pieces. */
  method ApplyPermMove(row: seq<int>, state: nat) returns (newState: int)
    requires |row| == 8 && InRange(row, |row|) && state < Factorial(|row|)
    ensures newState == PermNext(row, state)
  {
    var ok, perm := DecodeLehmer(state, 8);
    var moved := MovePieces(perm, row);
    newState := GetLehmerCode(moved, 8);
    assert moved[..8] == moved[..];
  }

  /** applyCornerPermMove: the corner row of the move. */
  method ApplyCornerPermMove(T: Tables, state: nat, move: nat) returns (newState: int)
    requires WellFormed(T) && move < MOVE_COUNT && state < Factorial(|T.corner[move]|)
    ensures newState == PermNext(T.corner[move], state)
  {
    newState := ApplyPermMove(T.corner[move], state);
  }

  /** applyEdgePermMove: the U/D-layer edge row of the move. */
  method ApplyEdgePermMove(T: Tables, state: nat, move: nat) returns (newState: int)
    requires WellFormed(T) && move < MOVE_COUNT && state < Factorial(|T.udEdge[move]|)
    ensures newState == PermNext(T.udEdge[move], state)
  {
    newState := ApplyPermMove(T.udEdge[move], state);
  }
}
