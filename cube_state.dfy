// The facelet cube: six 3x3 faces of colour letters, indexed
// [face][row][column] with the faces U = 0, D = 1, F = 2, B = 3, L = 4,
// R = 5. Copying a cube and hashing it into a Java long.

module CubeState {
  /** A sticker position: face, row, column. */
  datatype Cell = Cell(f: int, r: int, c: int)

  predicate Valid(x: Cell)
  {
    0 <= x.f < 6 && 0 <= x.r < 3 && 0 <= x.c < 3
  }

  /** A char[6][3][3]. */
  predicate IsCube(a: array3<char>)
  {
    a.Length0 == 6 && a.Length1 == 3 && a.Length2 == 3
  }

  /** The place of a sticker in the order the source walks the cube:
      face, then row, then column. */
  function Index(x: Cell): (i: int)
    requires Valid(x)
    ensures 0 <= i < 54
  {
    9 * x.f + 3 * x.r + x.c
  }

  function CellOf(i: int): (x: Cell)
    requires 0 <= i < 54
    ensures Valid(x) && Index(x) == i
  {
    Cell(i / 9, i % 9 / 3, i % 3)
  }

  /** Index and CellOf are inverse to each other. */
  lemma CellIndices()
    ensures forall x :: Valid(x) ==> CellOf(Index(x)) == x
  {
    forall x | Valid(x) ensures CellOf(Index(x)) == x {
      var i := Index(x);
      assert i / 9 == x.f;
      assert i % 9 == 3 * x.r + x.c;
    }
  }

  /** The 54 stickers in walking order. */
  function Grid(a: array3<char>): (g: seq<char>)
    reads a
    requires IsCube(a)
    ensures |g| == 54 && forall x :: Valid(x) ==> g[Index(x)] == a[x.f, x.r, x.c]
  {
    CellIndices();
    seq(54, i requires 0 <= i < 54 reads a => var x := CellOf(i); a[x.f, x.r, x.c])
  }

  /** The sticker at face f, row r, column col is letter 9f + 3r + col of
      the grid. */
  lemma GridAt(a: array3<char>, f: int, r: int, col: int)
    requires IsCube(a) && 0 <= f < 6 && 0 <= r < 3 && 0 <= col < 3
    ensures Grid(a)[9 * f + 3 * r + col] == a[f, r, col]
  {
    assert Index(Cell(f, r, col)) == 9 * f + 3 * r + col;
  }

  /** Two cubes with the same stickers have the same grid, and back. */
  lemma GridEqual(a: array3<char>, b: array3<char>)
    requires IsCube(a) && IsCube(b)
    ensures Grid(a) == Grid(b) <==> forall x :: Valid(x) ==> a[x.f, x.r, x.c] == b[x.f, x.r, x.c]
  {
    if forall x :: Valid(x) ==> a[x.f, x.r, x.c] == b[x.f, x.r, x.c] {
      forall i | 0 <= i < 54 ensures Grid(a)[i] == Grid(b)[i] {
        assert Grid(a)[Index(CellOf(i))] == Grid(b)[Index(CellOf(i))];
      }
    }
  }

  /** copyCube: a new char[6][3][3] with the same stickers. */
  method CopyCube(o: array3<char>) returns (c: array3<char>)
    requires IsCube(o)
    ensures fresh(c) && IsCube(c)
    ensures forall x {:trigger c[x.f, x.r, x.c]} :: Valid(x) ==> c[x.f, x.r, x.c] == o[x.f, x.r, x.c]
  {
    c := new char[6, 3, 3];
    for f := 0 to 6
      invariant forall ff, rr, cc :: 0 <= ff < f && 0 <= rr < 3 && 0 <= cc < 3 ==> c[ff, rr, cc] == o[ff, rr, cc]
    {
      for r := 0 to 3
        invariant forall ff, rr, cc :: 0 <= ff < f && 0 <= rr < 3 && 0 <= cc < 3 ==> c[ff, rr, cc] == o[ff, rr, cc]
        invariant forall rr, cc :: 0 <= rr < r && 0 <= cc < 3 ==> c[f, rr, cc] == o[f, rr, cc]
      {
        for col := 0 to 3
          invariant forall ff, rr, cc :: 0 <= ff < f && 0 <= rr < 3 && 0 <= cc < 3 ==> c[ff, rr, cc] == o[ff, rr, cc]
          invariant forall rr, cc :: 0 <= rr < r && 0 <= cc < 3 ==> c[f, rr, cc] == o[f, rr, cc]
          invariant forall cc :: 0 <= cc < col ==> c[f, r, cc] == o[f, r, cc]
        {
          c[f, r, col] := o[f, r, col];
        }
      }
    }
  }

  // ---------------------------------------------------------------------
  // The hash

  const TWO_63: int := 0x8000_0000_0000_0000
  const TWO_64: int := 0x1_0000_0000_0000_0000

  /** Java long arithmetic: the value brought into [-2^63, 2^63) by
      adding or removing 2^64. */
  function Wrap64(x: int): int
    decreases if x >= 0 then 2 * x else -2 * x - 1
  {
    if x >= TWO_63 then Wrap64(x - TWO_64)
    else if x < -TWO_63 then Wrap64(x + TWO_64)
    else x
  }

  /** Wrapping is the remainder modulo 2^64, read from -2^63. */
  lemma {:induction false} WrapMod(x: int)
    ensures Wrap64(x) == (x + TWO_63) % TWO_64 - TWO_63
    decreases if x >= 0 then 2 * x else -2 * x - 1
  {
    if x >= TWO_63 {
      WrapMod(x - TWO_64);
    } else if x < -TWO_63 {
      WrapMod(x + TWO_64);
    }
  }

  /** A wrapped value is a Java long, and a Java long wraps to itself. */
  lemma WrapRange(x: int)
    ensures -TWO_63 <= Wrap64(x) < TWO_63
    ensures -TWO_63 <= x < TWO_63 ==> Wrap64(x) == x
  {
    WrapMod(x);
  }

  /** Wrapping ignores multiples of 2^64. */
  lemma WrapShift(x: int, k: int)
    ensures Wrap64(x + k * TWO_64) == Wrap64(x)
  {
    WrapMod(x);
    WrapMod(x + k * TWO_64);
    var y := x + TWO_63;
    var q, r := y / TWO_64, y % TWO_64;
    assert y + k * TWO_64 == (q + k) * TWO_64 + r;
  }

  /** A wrapped value differs from the unwrapped one by a multiple of 2^64. */
  lemma WrapOffset(x: int) returns (k: int)
    ensures Wrap64(x) == x + k * TWO_64
  {
    WrapMod(x);
    k := -((x + TWO_63) / TWO_64);
  }

  /** One step of the hash loop, h * 31 + ch with both operations wrapping,
      agrees with wrapping once at the end. */
  lemma HashStep(p: int, ch: int)
    ensures Wrap64(Wrap64(Wrap64(p) * 31) + ch) == Wrap64(p * 31 + ch)
  {
    var k := WrapOffset(p);
    assert Wrap64(p) * 31 == p * 31 + (31 * k) * TWO_64;
    WrapShift(p * 31, 31 * k);
    var j := WrapOffset(p * 31);
    assert Wrap64(p * 31) + ch == p * 31 + ch + j * TWO_64;
    WrapShift(p * 31 + ch, j);
  }

  /** The base-31 polynomial of the first n letters, without overflow. */
  function Polynomial(g: seq<char>, n: nat): int
    requires n <= |g|
  {
    if n == 0 then 0 else Polynomial(g, n - 1) * 31 + g[n - 1] as int
  }

  /** One more letter through the loop's step keeps the accumulator equal
      to the wrapped polynomial. */
  lemma HashNext(g: seq<char>, i: nat, h: int)
    requires i < |g| && h == Wrap64(Polynomial(g, i))
    ensures Wrap64(Wrap64(h * 31) + g[i] as int) == Wrap64(Polynomial(g, i + 1))
  {
    HashStep(Polynomial(g, i), g[i] as int);
  }

  /** hashCube: the base-31 polynomial of the 54 stickers, walked face by
      face, row by row, computed in Java long arithmetic. */
  method HashCube(c: array3<char>) returns (h: int)
    requires IsCube(c)
    ensures h == Wrap64(Polynomial(Grid(c), 54))
  {
    ghost var g := Grid(c);
    ghost var i := 0;
    h := 0;
    for f := 0 to 6
      invariant i == 9 * f && h == Wrap64(Polynomial(g, i))
    {
      for r := 0 to 3
        invariant i == 9 * f + 3 * r && h == Wrap64(Polynomial(g, i))
      {
        for col := 0 to 3
          invariant i == 9 * f + 3 * r + col && h == Wrap64(Polynomial(g, i))
        {
          GridAt(c, f, r, col);
          HashNext(g, i, h);
          h := Wrap64(Wrap64(h * 31) + c[f, r, col] as int);
          i := i + 1;
        }
      }
    }
  }

  /** Cubes with the same stickers hash alike. */
  lemma SameStickersSameHash(a: array3<char>, b: array3<char>)
    requires IsCube(a) && IsCube(b)
    requires forall x :: Valid(x) ==> a[x.f, x.r, x.c] == b[x.f, x.r, x.c]
    ensures Wrap64(Polynomial(Grid(a), 54)) == Wrap64(Polynomial(Grid(b), 54))
  {
    GridEqual(a, b);
  }

  /** In particular a copy hashes as its original. */
  method CopyKeepsHash(c: array3<char>) returns (original: int, copied: int)
    requires IsCube(c)
    ensures original == copied
  {
    var d := CopyCube(c);
    original := HashCube(c);
    copied := HashCube(d);
    SameStickersSameHash(c, d);
  }
}
