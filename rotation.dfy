// The facelet turns: each clockwise quarter turn copies the cube, turns the
// stickers of one face in place and cycles the four strips that border it.
// A turn is specified by where each sticker comes from: after the turn the
// cube shows at x what it showed at From(m, x) before.

module Rotation {
  import opened CubeState
  import opened Moves

  datatype Face = U | D | F | B | L | R

  /** The face of index f in the cube array, and of moves 3f .. 3f + 2. */
  function FaceOf(f: int): Face
    requires 0 <= f < 6
  {
    if f == 0 then U else if f == 1 then D else if f == 2 then F
    else if f == 3 then B else if f == 4 then L else R
  }

  // ---------------------------------------------------------------------
  // Where each sticker comes from

  /** Turning a face clockwise: the new [r][c] is the old [2 - c][r]. */
  function FaceCW(x: Cell): Cell
  {
    Cell(x.f, 2 - x.c, x.r)
  }

  /** U: face 0 turns; row 0 of F takes R's, R takes B's, B takes L's and
      L takes F's. */
  function FromU(x: Cell): Cell
  {
    if x.f == 0 then FaceCW(x)
    else if x.r != 0 || x.f == 1 then x
    else if x.f == 2 then Cell(5, 0, x.c)
    else if x.f == 5 then Cell(3, 0, x.c)
    else if x.f == 3 then Cell(4, 0, x.c)
    else Cell(2, 0, x.c)
  }

  /** D: face 1 turns; row 2 of F takes L's, L takes B's, B takes R's and
      R takes F's. */
  function FromD(x: Cell): Cell
  {
    if x.f == 1 then FaceCW(x)
    else if x.r != 2 || x.f == 0 then x
    else if x.f == 2 then Cell(4, 2, x.c)
    else if x.f == 4 then Cell(3, 2, x.c)
    else if x.f == 3 then Cell(5, 2, x.c)
    else Cell(2, 2, x.c)
  }

  /** L: face 4 turns; column 0 of U takes B's column 2 reversed, B's
      column 2 takes D's column 0 reversed, D's column 0 takes F's and F's
      column 0 takes U's. */
  function FromL(x: Cell): Cell
  {
    if x.f == 4 then FaceCW(x)
    else if x.f == 0 && x.c == 0 then Cell(3, 2 - x.r, 2)
    else if x.f == 3 && x.c == 2 then Cell(1, 2 - x.r, 0)
    else if x.f == 1 && x.c == 0 then Cell(2, x.r, 0)
    else if x.f == 2 && x.c == 0 then Cell(0, x.r, 0)
    else x
  }

  /** R: face 5 turns; column 2 of U takes F's, F's takes D's, D's takes
      B's column 0 reversed and B's column 0 takes U's column 2 reversed. */
  function FromR(x: Cell): Cell
  {
    if x.f == 5 then FaceCW(x)
    else if x.f == 0 && x.c == 2 then Cell(2, x.r, 2)
    else if x.f == 2 && x.c == 2 then Cell(1, x.r, 2)
    else if x.f == 1 && x.c == 2 then Cell(3, 2 - x.r, 0)
    else if x.f == 3 && x.c == 0 then Cell(0, 2 - x.r, 2)
    else x
  }

  /** F: face 2 turns; row 2 of U takes L's column 2 reversed, L's column 2
      takes D's row 0, D's row 0 takes R's column 0 reversed and R's
      column 0 takes U's row 2. */
  function FromF(x: Cell): Cell
  {
    if x.f == 2 then FaceCW(x)
    else if x.f == 0 && x.r == 2 then Cell(4, 2 - x.c, 2)
    else if x.f == 4 && x.c == 2 then Cell(1, 0, x.r)
    else if x.f == 1 && x.r == 0 then Cell(5, 2 - x.c, 0)
    else if x.f == 5 && x.c == 0 then Cell(0, 2, x.r)
    else x
  }

  /** F as the source writes it: D's row 0 takes R's column 0 in the same
      order, not reversed. */
  function FromFAsWritten(x: Cell): (y: Cell)
    ensures Valid(x) ==> Valid(y)
  {
    if x.f == 1 && x.r == 0 then Cell(5, x.c, 0) else FromF(x)
  }

  /** B: face 3 turns; row 0 of U takes R's column 2, R's column 2 takes
      D's row 2 reversed, D's row 2 takes L's column 0 and L's column 0
      takes U's row 0 reversed. */
  function FromB(x: Cell): Cell
  {
    if x.f == 3 then FaceCW(x)
    else if x.f == 0 && x.r == 0 then Cell(5, x.c, 2)
    else if x.f == 5 && x.c == 2 then Cell(1, 2, 2 - x.r)
    else if x.f == 1 && x.r == 2 then Cell(4, x.c, 0)
    else if x.f == 4 && x.c == 0 then Cell(0, 0, 2 - x.r)
    else x
  }

  /** The clockwise quarter turn of face m. */
  function From(m: Face, x: Cell): (y: Cell)
    ensures Valid(x) ==> Valid(y)
  {
    match m
    case U => FromU(x)
    case D => FromD(x)
    case F => FromF(x)
    case B => FromB(x)
    case L => FromL(x)
    case R => FromR(x)
  }

  /** Which F turn a dispatch uses: rotateF as the source writes it, or
      the corrected one. Every other face turns alike in both. */
  datatype Version = AsWritten | Corrected

  /** The clockwise quarter turn of face m in version v. */
  function Quarter(v: Version, m: Face, x: Cell): (y: Cell)
    ensures Valid(x) ==> Valid(y)
  {
    if v == AsWritten && m == F then FromFAsWritten(x) else From(m, x)
  }

  /** k clockwise quarter turns of face m in version v. */
  function Turns(v: Version, m: Face, k: nat, x: Cell): (y: Cell)
    ensures Valid(x) ==> Valid(y)
  {
    if k == 0 then x else Quarter(v, m, Turns(v, m, k - 1, x))
  }


  // ---------------------------------------------------------------------
  // Laws of the turns

  /** Turning a face four times gives back the face. */
  lemma FaceCWPeriod(x: Cell)
    ensures FaceCW(FaceCW(FaceCW(FaceCW(x)))) == x
  {
  }

  lemma UPeriod(x: Cell)
    requires Valid(x)
    ensures FromU(FromU(FromU(FromU(x)))) == x
  {
    if x.f == 0 {
      FaceCWPeriod(x);
    } else if x.f == 2 && x.r == 0 {
      assert FromU(x) == Cell(5, 0, x.c);
      assert FromU(Cell(5, 0, x.c)) == Cell(3, 0, x.c);
      assert FromU(Cell(3, 0, x.c)) == Cell(4, 0, x.c);
    } else if x.f == 5 && x.r == 0 {
      assert FromU(x) == Cell(3, 0, x.c);
      assert FromU(Cell(3, 0, x.c)) == Cell(4, 0, x.c);
      assert FromU(Cell(4, 0, x.c)) == Cell(2, 0, x.c);
    } else if x.f == 3 && x.r == 0 {
      assert FromU(x) == Cell(4, 0, x.c);
      assert FromU(Cell(4, 0, x.c)) == Cell(2, 0, x.c);
      assert FromU(Cell(2, 0, x.c)) == Cell(5, 0, x.c);
    } else if x.f == 4 && x.r == 0 {
      assert FromU(x) == Cell(2, 0, x.c);
      assert FromU(Cell(2, 0, x.c)) == Cell(5, 0, x.c);
      assert FromU(Cell(5, 0, x.c)) == Cell(3, 0, x.c);
    }
  }

  lemma DPeriod(x: Cell)
    requires Valid(x)
    ensures FromD(FromD(FromD(FromD(x)))) == x
  {
    if x.f == 1 {
      FaceCWPeriod(x);
    } else if x.f == 2 && x.r == 2 {
      assert FromD(x) == Cell(4, 2, x.c);
      assert FromD(Cell(4, 2, x.c)) == Cell(3, 2, x.c);
      assert FromD(Cell(3, 2, x.c)) == Cell(5, 2, x.c);
    } else if x.f == 4 && x.r == 2 {
      assert FromD(x) == Cell(3, 2, x.c);
      assert FromD(Cell(3, 2, x.c)) == Cell(5, 2, x.c);
      assert FromD(Cell(5, 2, x.c)) == Cell(2, 2, x.c);
    } else if x.f == 3 && x.r == 2 {
      assert FromD(x) == Cell(5, 2, x.c);
      assert FromD(Cell(5, 2, x.c)) == Cell(2, 2, x.c);
      assert FromD(Cell(2, 2, x.c)) == Cell(4, 2, x.c);
    } else if x.f == 5 && x.r == 2 {
      assert FromD(x) == Cell(2, 2, x.c);
      assert FromD(Cell(2, 2, x.c)) == Cell(4, 2, x.c);
      assert FromD(Cell(4, 2, x.c)) == Cell(3, 2, x.c);
    }
  }

  lemma LPeriod(x: Cell)
    requires Valid(x)
    ensures FromL(FromL(FromL(FromL(x)))) == x
  {
    if x.f == 4 {
      FaceCWPeriod(x);
    } else if x.f == 0 && x.c == 0 {
      assert FromL(x) == Cell(3, 2 - x.r, 2);
      assert FromL(Cell(3, 2 - x.r, 2)) == Cell(1, x.r, 0);
      assert FromL(Cell(1, x.r, 0)) == Cell(2, x.r, 0);
    } else if x.f == 3 && x.c == 2 {
      assert FromL(x) == Cell(1, 2 - x.r, 0);
      assert FromL(Cell(1, 2 - x.r, 0)) == Cell(2, 2 - x.r, 0);
      assert FromL(Cell(2, 2 - x.r, 0)) == Cell(0, 2 - x.r, 0);
    } else if x.f == 1 && x.c == 0 {
      assert FromL(x) == Cell(2, x.r, 0);
      assert FromL(Cell(2, x.r, 0)) == Cell(0, x.r, 0);
      assert FromL(Cell(0, x.r, 0)) == Cell(3, 2 - x.r, 2);
    } else if x.f == 2 && x.c == 0 {
      assert FromL(x) == Cell(0, x.r, 0);
      assert FromL(Cell(0, x.r, 0)) == Cell(3, 2 - x.r, 2);
      assert FromL(Cell(3, 2 - x.r, 2)) == Cell(1, x.r, 0);
    }
  }

  lemma RPeriod(x: Cell)
    requires Valid(x)
    ensures FromR(FromR(FromR(FromR(x)))) == x
  {
    if x.f == 5 {
      FaceCWPeriod(x);
    } else if x.f == 0 && x.c == 2 {
      assert FromR(x) == Cell(2, x.r, 2);
      assert FromR(Cell(2, x.r, 2)) == Cell(1, x.r, 2);
      assert FromR(Cell(1, x.r, 2)) == Cell(3, 2 - x.r, 0);
    } else if x.f == 2 && x.c == 2 {
      assert FromR(x) == Cell(1, x.r, 2);
      assert FromR(Cell(1, x.r, 2)) == Cell(3, 2 - x.r, 0);
      assert FromR(Cell(3, 2 - x.r, 0)) == Cell(0, x.r, 2);
    } else if x.f == 1 && x.c == 2 {
      assert FromR(x) == Cell(3, 2 - x.r, 0);
      assert FromR(Cell(3, 2 - x.r, 0)) == Cell(0, x.r, 2);
      assert FromR(Cell(0, x.r, 2)) == Cell(2, x.r, 2);
    } else if x.f == 3 && x.c == 0 {
      assert FromR(x) == Cell(0, 2 - x.r, 2);
      assert FromR(Cell(0, 2 - x.r, 2)) == Cell(2, 2 - x.r, 2);
      assert FromR(Cell(2, 2 - x.r, 2)) == Cell(1, 2 - x.r, 2);
    }
  }

  lemma FPeriod(x: Cell)
    requires Valid(x)
    ensures FromF(FromF(FromF(FromF(x)))) == x
  {
    if x.f == 2 {
      FaceCWPeriod(x);
    } else if x.f == 0 && x.r == 2 {
      assert FromF(x) == Cell(4, 2 - x.c, 2);
      assert FromF(Cell(4, 2 - x.c, 2)) == Cell(1, 0, 2 - x.c);
      assert FromF(Cell(1, 0, 2 - x.c)) == Cell(5, x.c, 0);
    } else if x.f == 4 && x.c == 2 {
      assert FromF(x) == Cell(1, 0, x.r);
      assert FromF(Cell(1, 0, x.r)) == Cell(5, 2 - x.r, 0);
      assert FromF(Cell(5, 2 - x.r, 0)) == Cell(0, 2, 2 - x.r);
    } else if x.f == 1 && x.r == 0 {
      assert FromF(x) == Cell(5, 2 - x.c, 0);
      assert FromF(Cell(5, 2 - x.c, 0)) == Cell(0, 2, 2 - x.c);
      assert FromF(Cell(0, 2, 2 - x.c)) == Cell(4, x.c, 2);
    } else if x.f == 5 && x.c == 0 {
      assert FromF(x) == Cell(0, 2, x.r);
      assert FromF(Cell(0, 2, x.r)) == Cell(4, 2 - x.r, 2);
      assert FromF(Cell(4, 2 - x.r, 2)) == Cell(1, 0, 2 - x.r);
    }
  }

  lemma BPeriod(x: Cell)
    requires Valid(x)
    ensures FromB(FromB(FromB(FromB(x)))) == x
  {
    if x.f == 3 {
      FaceCWPeriod(x);
    } else if x.f == 0 && x.r == 0 {
      assert FromB(x) == Cell(5, x.c, 2);
      assert FromB(Cell(5, x.c, 2)) == Cell(1, 2, 2 - x.c);
      assert FromB(Cell(1, 2, 2 - x.c)) == Cell(4, 2 - x.c, 0);
    } else if x.f == 5 && x.c == 2 {
      assert FromB(x) == Cell(1, 2, 2 - x.r);
      assert FromB(Cell(1, 2, 2 - x.r)) == Cell(4, 2 - x.r, 0);
      assert FromB(Cell(4, 2 - x.r, 0)) == Cell(0, 0, x.r);
    } else if x.f == 1 && x.r == 2 {
      assert FromB(x) == Cell(4, x.c, 0);
      assert FromB(Cell(4, x.c, 0)) == Cell(0, 0, 2 - x.c);
      assert FromB(Cell(0, 0, 2 - x.c)) == Cell(5, 2 - x.c, 2);
    } else if x.f == 4 && x.c == 0 {
      assert FromB(x) == Cell(0, 0, 2 - x.r);
      assert FromB(Cell(0, 0, 2 - x.r)) == Cell(5, 2 - x.r, 2);
      assert FromB(Cell(5, 2 - x.r, 2)) == Cell(1, 2, x.r);
    }
  }

  /** Four corrected quarter turns of any face are the identity. */
  lemma TurnPeriod(m: Face, x: Cell)
    requires Valid(x)
    ensures Turns(Corrected, m, 4, x) == x
  {
    SmallTurns(Corrected, m, x);
    assert Turns(Corrected, m, 4, x) == From(m, Turns(Corrected, m, 3, x));
    FromPeriod(m, x);
  }

  /** As written, four quarter turns are the identity for every face but
      F, and not for F. */
  lemma AsWrittenPeriod(m: Face, x: Cell)
    requires Valid(x)
    ensures m != F ==> Turns(AsWritten, m, 4, x) == x
    ensures Turns(AsWritten, F, 4, Cell(0, 2, 0)) == Cell(0, 2, 2)
  {
    if m != F {
      SmallTurns(AsWritten, m, x);
      assert Turns(AsWritten, m, 4, x) == From(m, Turns(AsWritten, m, 3, x));
      FromPeriod(m, x);
    }
    var c := Cell(0, 2, 0);
    SmallTurns(AsWritten, F, c);
    assert Turns(AsWritten, F, 4, c) == FromFAsWritten(Turns(AsWritten, F, 3, c));
    FAsWrittenNotPeriodic();
  }

  lemma FromPeriod(m: Face, x: Cell)
    requires Valid(x)
    ensures From(m, From(m, From(m, From(m, x)))) == x
  {
    match m
    case U => UPeriod(x);
    case D => DPeriod(x);
    case F => FPeriod(x);
    case B => BPeriod(x);
    case L => LPeriod(x);
    case R => RPeriod(x);
  }

  /** The F turn as written does not have period four: after four turns
      the stickers at U[2][0] and U[2][2] have traded places. */
  lemma FAsWrittenNotPeriodic()
    ensures FromFAsWritten(FromFAsWritten(FromFAsWritten(FromFAsWritten(Cell(0, 2, 0))))) == Cell(0, 2, 2)
  {
  }

  /** Centres never move. */
  lemma CentresFixed(m: Face, f: int)
    requires 0 <= f < 6
    ensures From(m, Cell(f, 1, 1)) == Cell(f, 1, 1)
  {
  }

  /** Opposite faces turn independently: U and D, F and B, L and R. */
  lemma UDCommute(x: Cell)
    requires Valid(x)
    ensures FromU(FromD(x)) == FromD(FromU(x))
  {
    if x.f == 0 || (x.f != 1 && x.r == 0) {
      assert FromD(x) == x;
      assert FromD(FromU(x)) == FromU(x);
    } else {
      assert FromU(x) == x;
      assert FromU(FromD(x)) == FromD(x);
    }
  }

  lemma FBCommute(x: Cell)
    requires Valid(x)
    ensures FromF(FromB(x)) == FromB(FromF(x))
  {
    if x.f == 2 {
      assert FromB(x) == x && FromB(FaceCW(x)) == FaceCW(x);
    } else if x.f == 0 && x.r == 2 {
      assert FromB(x) == x && FromB(Cell(4, 2 - x.c, 2)) == Cell(4, 2 - x.c, 2);
    } else if x.f == 4 && x.c == 2 {
      assert FromB(x) == x && FromB(Cell(1, 0, x.r)) == Cell(1, 0, x.r);
    } else if x.f == 1 && x.r == 0 {
      assert FromB(x) == x && FromB(Cell(5, 2 - x.c, 0)) == Cell(5, 2 - x.c, 0);
    } else if x.f == 5 && x.c == 0 {
      assert FromB(x) == x && FromB(Cell(0, 2, x.r)) == Cell(0, 2, x.r);
    } else if x.f == 3 {
      assert FromF(x) == x && FromF(FaceCW(x)) == FaceCW(x);
    } else if x.f == 0 && x.r == 0 {
      assert FromF(x) == x && FromF(Cell(5, x.c, 2)) == Cell(5, x.c, 2);
    } else if x.f == 5 && x.c == 2 {
      assert FromF(x) == x && FromF(Cell(1, 2, 2 - x.r)) == Cell(1, 2, 2 - x.r);
    } else if x.f == 1 && x.r == 2 {
      assert FromF(x) == x && FromF(Cell(4, x.c, 0)) == Cell(4, x.c, 0);
    } else if x.f == 4 && x.c == 0 {
      assert FromF(x) == x && FromF(Cell(0, 0, 2 - x.r)) == Cell(0, 0, 2 - x.r);
    } else {
      assert FromF(x) == x && FromB(x) == x;
    }
  }

  lemma LRCommute(x: Cell)
    requires Valid(x)
    ensures FromL(FromR(x)) == FromR(FromL(x))
  {
    if x.f == 4 || (x.f == 0 && x.c == 0) || (x.f == 3 && x.c == 2) || (x.f == 1 && x.c == 0) || (x.f == 2 && x.c == 0) {
      assert FromR(x) == x;
      assert FromR(FromL(x)) == FromL(x);
    } else {
      assert FromL(x) == x;
      assert FromL(FromR(x)) == FromR(x);
    }
  }

  /** A turn of U touches face U and the top rows of F, R, B and L only. */
  lemma UTouches(x: Cell)
    requires Valid(x)
    ensures FromU(x) != x ==> x.f == 0 || (x.r == 0 && 2 <= x.f)
    ensures x.f == 1 || (x.r != 0 && x.f != 0) ==> FromU(x) == x
  {
  }

  lemma {:induction false} TurnsShift(v: Version, m: Face, k: nat, x: Cell)
    ensures Turns(v, m, k, Quarter(v, m, x)) == Quarter(v, m, Turns(v, m, k, x))
  {
    if k > 0 {
      TurnsShift(v, m, k - 1, x);
    }
  }

  /** Three corrected quarter turns undo one, on either side. */
  lemma PrimeUndoes(m: Face, x: Cell)
    requires Valid(x)
    ensures Turns(Corrected, m, 3, From(m, x)) == x && From(m, Turns(Corrected, m, 3, x)) == x
  {
    TurnPeriod(m, x);
    TurnsShift(Corrected, m, 3, x);
  }

  /** Turns are bijections on the stickers. */
  lemma FromInjective(m: Face, x: Cell, y: Cell)
    requires Valid(x) && Valid(y) && From(m, x) == From(m, y)
    ensures x == y
  {
    PrimeUndoes(m, x);
    PrimeUndoes(m, y);
  }

  // ---------------------------------------------------------------------
  // The turns on the array

  /** rotateFaceCW on face f of the cube: through a temporary 3x3 array,
      then copied back row by row. */
  method RotateFaceCW(a: array3<char>, f: int)
    requires IsCube(a) && 0 <= f < 6
    modifies a
    ensures forall x {:trigger a[x.f, x.r, x.c]} :: Valid(x) ==> a[x.f, x.r, x.c] == old(if x.f == f then a[f, 2 - x.c, x.r] else a[x.f, x.r, x.c])
  {
    var tmp := new char[3, 3];
    for r := 0 to 3
      modifies tmp
      invariant forall rr, cc :: 0 <= rr < r && 0 <= cc < 3 ==> tmp[cc, 2 - rr] == a[f, rr, cc]
    {
      for col := 0 to 3
        modifies tmp
        invariant forall rr, cc :: 0 <= rr < r && 0 <= cc < 3 ==> tmp[cc, 2 - rr] == a[f, rr, cc]
        invariant forall cc :: 0 <= cc < col ==> tmp[cc, 2 - r] == a[f, r, cc]
      {
        tmp[col, 2 - r] := a[f, r, col];
      }
    }
    assert forall rr, cc :: 0 <= rr < 3 && 0 <= cc < 3 ==> tmp[cc, 2 - rr] == a[f, rr, cc];
    assert forall rr, cc :: 0 <= rr < 3 && 0 <= cc < 3 ==> a[f, rr, cc] == old(a[f, rr, cc]);
    for r := 0 to 3
      invariant forall rr, cc :: 0 <= rr < 3 && 0 <= cc < 3 ==> tmp[cc, 2 - rr] == old(a[f, rr, cc])
      invariant forall g, rr, cc :: 0 <= g < 6 && 0 <= rr < 3 && 0 <= cc < 3 ==>
        a[g, rr, cc] == if g == f && rr < r then tmp[rr, cc] else old(a[g, rr, cc])
    {
      for col := 0 to 3
        invariant forall rr, cc :: 0 <= rr < 3 && 0 <= cc < 3 ==> tmp[cc, 2 - rr] == old(a[f, rr, cc])
        invariant forall g, rr, cc :: 0 <= g < 6 && 0 <= rr < 3 && 0 <= cc < 3 ==>
          a[g, rr, cc] == if g == f && (rr < r || (rr == r && cc < col)) then tmp[rr, cc] else old(a[g, rr, cc])
      {
        a[f, r, col] := tmp[r, col];
      }
    }
    forall x {:trigger a[x.f, x.r, x.c]} | Valid(x)
      ensures a[x.f, x.r, x.c] == old(if x.f == f then a[f, 2 - x.c, x.r] else a[x.f, x.r, x.c])
    {
      if x.f == f {
        assert tmp[x.r, x.c] == old(a[f, 2 - x.c, x.r]);
      }
    }
  }

  /** A row or a column of one face. */
  datatype Line = Row(f: int, r: int) | Col(f: int, c: int)

  predicate ValidLine(l: Line)
  {
    0 <= l.f < 6 && (if l.Row? then 0 <= l.r < 3 else 0 <= l.c < 3)
  }

  /** The i-th sticker of the line. */
  function LineCell(l: Line, i: int): (x: Cell)
    requires ValidLine(l) && 0 <= i < 3
    ensures Valid(x)
  {
    if l.Row? then Cell(l.f, l.r, i) else Cell(l.f, i, l.c)
  }

  predicate OnLine(l: Line, x: Cell)
  {
    x.f == l.f && if l.Row? then x.r == l.r else x.c == l.c
  }

  /** The position along a line of a cell on it. */
  function Pos(l: Line, x: Cell): int
  {
    if l.Row? then x.c else x.r
  }

  /** Position i, counted from the other end when rev. */
  function Along(rev: bool, i: int): int
  {
    if rev then 2 - i else i
  }

  /** The four side strips a quarter turn cycles, with the order each one
      is read in: l1 takes l2, l2 takes l3, l3 takes l4 and l4 takes the
      saved l1, each read backwards when its flag is set. */
  datatype Strips = Strips(l1: Line, l2: Line, l3: Line, l4: Line, rev1: bool, rev2: bool, rev3: bool, rev4: bool)

  predicate ValidStrips(s: Strips)
  {
    ValidLine(s.l1) && ValidLine(s.l2) && ValidLine(s.l3) && ValidLine(s.l4) &&
    s.l1.f != s.l2.f && s.l1.f != s.l3.f && s.l1.f != s.l4.f &&
    s.l2.f != s.l3.f && s.l2.f != s.l4.f && s.l3.f != s.l4.f
  }

  /** Where a sticker comes from when the strips are cycled. */
  function StripSource(s: Strips, x: Cell): (y: Cell)
    requires ValidStrips(s) && Valid(x)
    ensures Valid(y)
  {
    if OnLine(s.l1, x) then LineCell(s.l2, Along(s.rev1, Pos(s.l1, x)))
    else if OnLine(s.l2, x) then LineCell(s.l3, Along(s.rev2, Pos(s.l2, x)))
    else if OnLine(s.l3, x) then LineCell(s.l4, Along(s.rev3, Pos(s.l3, x)))
    else if OnLine(s.l4, x) then LineCell(s.l1, Along(s.rev4, Pos(s.l4, x)))
    else x
  }

  /** The three letters of a line, in order. */
  function LineLetters(a: array3<char>, l: Line): (vals: seq<char>)
    requires IsCube(a) && ValidLine(l)
    reads a
    ensures |vals| == 3
    ensures forall i :: 0 <= i < 3 ==> vals[i] == var y := LineCell(l, i); a[y.f, y.r, y.c]
  {
    var y0, y1, y2 := LineCell(l, 0), LineCell(l, 1), LineCell(l, 2);
    [a[y0.f, y0.r, y0.c], a[y1.f, y1.r, y1.c], a[y2.f, y2.r, y2.c]]
  }

  /** One strip write of the source: the cells of dst take the given
      letters, in order or backwards; every other cell keeps its letter. */
  method WriteLine(a: array3<char>, dst: Line, vals: seq<char>, rev: bool)
    requires IsCube(a) && ValidLine(dst) && |vals| == 3
    modifies a
    ensures forall x {:trigger a[x.f, x.r, x.c]} :: Valid(x) ==>
      a[x.f, x.r, x.c] == if OnLine(dst, x) then vals[Along(rev, Pos(dst, x))] else old(a[x.f, x.r, x.c])
  {
    for i := 0 to 3
      invariant forall x {:trigger a[x.f, x.r, x.c]} :: Valid(x) ==>
        a[x.f, x.r, x.c] == if OnLine(dst, x) && Pos(dst, x) < i then vals[Along(rev, Pos(dst, x))] else old(a[x.f, x.r, x.c])
    {
      var x := LineCell(dst, i);
      a[x.f, x.r, x.c] := vals[Along(rev, i)];
    }
  }

  /** The first three strip copies: l1 takes l2, l2 takes l3, l3 takes l4. */
  method ShiftStrips(a: array3<char>, s: Strips)
    requires IsCube(a) && ValidStrips(s)
    modifies a
    ensures forall x {:trigger a[x.f, x.r, x.c]} :: Valid(x) ==>
      a[x.f, x.r, x.c] == old(var y := if OnLine(s.l4, x) then x else StripSource(s, x); a[y.f, y.r, y.c])
  {
    WriteLine(a, s.l1, LineLetters(a, s.l2), s.rev1);
    label S1:
    WriteLine(a, s.l2, LineLetters(a, s.l3), s.rev2);
    label S2:
    WriteLine(a, s.l3, LineLetters(a, s.l4), s.rev3);
    forall x {:trigger a[x.f, x.r, x.c]} | Valid(x)
      ensures a[x.f, x.r, x.c] == old(var y := if OnLine(s.l4, x) then x else StripSource(s, x); a[y.f, y.r, y.c])
    {
      var y := if OnLine(s.l4, x) then x else StripSource(s, x);
      if OnLine(s.l1, x) {
        assert y == LineCell(s.l2, Along(s.rev1, Pos(s.l1, x)));
        assert a[x.f, x.r, x.c] == old@S1(a[x.f, x.r, x.c]);
      } else if OnLine(s.l2, x) {
        assert y == LineCell(s.l3, Along(s.rev2, Pos(s.l2, x)));
        assert a[x.f, x.r, x.c] == old@S2(a[x.f, x.r, x.c]);
        assert old@S1(a[y.f, y.r, y.c]) == old(a[y.f, y.r, y.c]);
      } else if OnLine(s.l3, x) {
        assert y == LineCell(s.l4, Along(s.rev3, Pos(s.l3, x)));
        assert old@S2(a[y.f, y.r, y.c]) == old@S1(a[y.f, y.r, y.c]) == old(a[y.f, y.r, y.c]);
      } else {
        assert y == x;
        assert a[x.f, x.r, x.c] == old@S2(a[x.f, x.r, x.c]) == old@S1(a[x.f, x.r, x.c]) == old(a[x.f, x.r, x.c]);
      }
    }
  }

  /** The strip part shared by the six rotations: save l1, copy l2, l3 and
      l4 along, write the saved letters to l4. */
  method CycleStrips(a: array3<char>, s: Strips)
    requires IsCube(a) && ValidStrips(s)
    modifies a
    ensures forall x {:trigger a[x.f, x.r, x.c]} :: Valid(x) ==> a[x.f, x.r, x.c] == old(var y := StripSource(s, x); a[y.f, y.r, y.c])
  {
    var temp := LineLetters(a, s.l1);
    ShiftStrips(a, s);
    label Shifted:
    WriteLine(a, s.l4, temp, s.rev4);
    forall x {:trigger a[x.f, x.r, x.c]} | Valid(x) ensures a[x.f, x.r, x.c] == old(var y := StripSource(s, x); a[y.f, y.r, y.c]) {
      if OnLine(s.l4, x) {
        assert StripSource(s, x) == LineCell(s.l1, Along(s.rev4, Pos(s.l4, x)));
        assert a[x.f, x.r, x.c] == temp[Along(s.rev4, Pos(s.l4, x))];
      } else {
        assert a[x.f, x.r, x.c] == old@Shifted(a[x.f, x.r, x.c]);
      }
    }
  }

  /** The strips of each face's quarter turn, as the source cycles them;
      for F the third copy reads column 0 of R backwards (see FAsWrittenStrips). */
  function StripsOf(m: Face): Strips
  {
    match m
    case U => Strips(Row(2, 0), Row(5, 0), Row(3, 0), Row(4, 0), false, false, false, false)
    case D => Strips(Row(2, 2), Row(4, 2), Row(3, 2), Row(5, 2), false, false, false, false)
    case L => Strips(Col(0, 0), Col(3, 2), Col(1, 0), Col(2, 0), true, true, false, false)
    case R => Strips(Col(0, 2), Col(2, 2), Col(1, 2), Col(3, 0), false, false, true, true)
    case F => Strips(Row(0, 2), Col(4, 2), Row(1, 0), Col(5, 0), true, false, true, false)
    case B => Strips(Row(0, 0), Col(5, 2), Row(1, 2), Col(4, 0), false, true, false, true)
  }

  /** rotateF's strips as written: row 0 of D reads column 0 of R forwards. */
  function FAsWrittenStrips(): Strips
  {
    Strips(Row(0, 2), Col(4, 2), Row(1, 0), Col(5, 0), true, false, false, false)
  }

  function FaceIndex(m: Face): int
  {
    match m
    case U => 0
    case D => 1
    case F => 2
    case B => 3
    case L => 4
    case R => 5
  }

  /** Where a sticker comes from when face f is turned in place and then the
      strips are cycled. */
  function TurnSource(f: int, s: Strips, x: Cell): (y: Cell)
    requires ValidStrips(s) && Valid(x)
    ensures Valid(y)
  {
    var y := StripSource(s, x);
    if y.f == f then FaceCW(y) else y
  }

  /** The body shared by the six rotations, on the copy: turn the face in
      place, then cycle the strips around it. */
  method TurnInPlace(a: array3<char>, f: int, s: Strips)
    requires IsCube(a) && 0 <= f < 6 && ValidStrips(s)
    modifies a
    ensures forall x {:trigger a[x.f, x.r, x.c]} :: Valid(x) ==> a[x.f, x.r, x.c] == old(var y := TurnSource(f, s, x); a[y.f, y.r, y.c])
  {
    RotateFaceCW(a, f);
    label Turned:
    CycleStrips(a, s);
    forall x {:trigger a[x.f, x.r, x.c]} | Valid(x) ensures a[x.f, x.r, x.c] == old(var y := TurnSource(f, s, x); a[y.f, y.r, y.c]) {
      var y := StripSource(s, x);
      assert a[x.f, x.r, x.c] == old@Turned(a[y.f, y.r, y.c]);
      if y.f == f {
        assert old@Turned(a[y.f, y.r, y.c]) == old(a[f, 2 - y.c, y.r]);
      } else {
        assert old@Turned(a[y.f, y.r, y.c]) == old(a[y.f, y.r, y.c]);
      }
    }
  }

  /** A quarter turn on a copy of the array. */
  method TurnWith(cube: array3<char>, f: int, s: Strips) returns (c: array3<char>)
    requires IsCube(cube) && 0 <= f < 6 && ValidStrips(s)
    ensures fresh(c) && IsCube(c)
    ensures forall x {:trigger c[x.f, x.r, x.c]} :: Valid(x) ==> c[x.f, x.r, x.c] == var y := TurnSource(f, s, x); cube[y.f, y.r, y.c]
  {
    c := CopyCube(cube);
    TurnInPlace(c, f, s);
  }

  method RotateU(cube: array3<char>) returns (c: array3<char>)
    requires IsCube(cube)
    ensures fresh(c) && IsCube(c)
    ensures forall x {:trigger c[x.f, x.r, x.c]} :: Valid(x) ==> c[x.f, x.r, x.c] == var y := From(U, x); cube[y.f, y.r, y.c]
  {
    assert ValidStrips(StripsOf(U));
    c := TurnWith(cube, 0, StripsOf(U));
    forall x {:trigger c[x.f, x.r, x.c]} | Valid(x) ensures c[x.f, x.r, x.c] == var y := From(U, x); cube[y.f, y.r, y.c] {
      assert From(U, x) == TurnSource(0, StripsOf(U), x);
    }
  }

  method RotateD(cube: array3<char>) returns (c: array3<char>)
    requires IsCube(cube)
    ensures fresh(c) && IsCube(c)
    ensures forall x {:trigger c[x.f, x.r, x.c]} :: Valid(x) ==> c[x.f, x.r, x.c] == var y := From(D, x); cube[y.f, y.r, y.c]
  {
    assert ValidStrips(StripsOf(D));
    c := TurnWith(cube, 1, StripsOf(D));
    forall x {:trigger c[x.f, x.r, x.c]} | Valid(x) ensures c[x.f, x.r, x.c] == var y := From(D, x); cube[y.f, y.r, y.c] {
      assert From(D, x) == TurnSource(1, StripsOf(D), x);
    }
  }

  method RotateF(cube: array3<char>) returns (c: array3<char>)
    requires IsCube(cube)
    ensures fresh(c) && IsCube(c)
    ensures forall x {:trigger c[x.f, x.r, x.c]} :: Valid(x) ==> c[x.f, x.r, x.c] == var y := From(F, x); cube[y.f, y.r, y.c]
  {
    assert ValidStrips(StripsOf(F));
    c := TurnWith(cube, 2, StripsOf(F));
    forall x {:trigger c[x.f, x.r, x.c]} | Valid(x) ensures c[x.f, x.r, x.c] == var y := From(F, x); cube[y.f, y.r, y.c] {
      assert From(F, x) == TurnSource(2, StripsOf(F), x);
    }
  }

  method RotateB(cube: array3<char>) returns (c: array3<char>)
    requires IsCube(cube)
    ensures fresh(c) && IsCube(c)
    ensures forall x {:trigger c[x.f, x.r, x.c]} :: Valid(x) ==> c[x.f, x.r, x.c] == var y := From(B, x); cube[y.f, y.r, y.c]
  {
    assert ValidStrips(StripsOf(B));
    c := TurnWith(cube, 3, StripsOf(B));
    forall x {:trigger c[x.f, x.r, x.c]} | Valid(x) ensures c[x.f, x.r, x.c] == var y := From(B, x); cube[y.f, y.r, y.c] {
      assert From(B, x) == TurnSource(3, StripsOf(B), x);
    }
  }

  method RotateL(cube: array3<char>) returns (c: array3<char>)
    requires IsCube(cube)
    ensures fresh(c) && IsCube(c)
    ensures forall x {:trigger c[x.f, x.r, x.c]} :: Valid(x) ==> c[x.f, x.r, x.c] == var y := From(L, x); cube[y.f, y.r, y.c]
  {
    assert ValidStrips(StripsOf(L));
    c := TurnWith(cube, 4, StripsOf(L));
    forall x {:trigger c[x.f, x.r, x.c]} | Valid(x) ensures c[x.f, x.r, x.c] == var y := From(L, x); cube[y.f, y.r, y.c] {
      assert From(L, x) == TurnSource(4, StripsOf(L), x);
    }
  }

  method RotateR(cube: array3<char>) returns (c: array3<char>)
    requires IsCube(cube)
    ensures fresh(c) && IsCube(c)
    ensures forall x {:trigger c[x.f, x.r, x.c]} :: Valid(x) ==> c[x.f, x.r, x.c] == var y := From(R, x); cube[y.f, y.r, y.c]
  {
    assert ValidStrips(StripsOf(R));
    c := TurnWith(cube, 5, StripsOf(R));
    forall x {:trigger c[x.f, x.r, x.c]} | Valid(x) ensures c[x.f, x.r, x.c] == var y := From(R, x); cube[y.f, y.r, y.c] {
      assert From(R, x) == TurnSource(5, StripsOf(R), x);
    }
  }

  /** rotateF as written, whose third strip copy keeps the order. */
  method RotateFAsWritten(cube: array3<char>) returns (c: array3<char>)
    requires IsCube(cube)
    ensures fresh(c) && IsCube(c)
    ensures forall x {:trigger c[x.f, x.r, x.c]} :: Valid(x) ==> c[x.f, x.r, x.c] == var y := FromFAsWritten(x); cube[y.f, y.r, y.c]
  {
    assert ValidStrips(FAsWrittenStrips());
    c := TurnWith(cube, 2, FAsWrittenStrips());
    forall x {:trigger c[x.f, x.r, x.c]} | Valid(x) ensures c[x.f, x.r, x.c] == var y := FromFAsWritten(x); cube[y.f, y.r, y.c] {
      assert FromFAsWritten(x) == TurnSource(2, FAsWrittenStrips(), x);
    }
  }

  /** One, two and three turns spelled out. */
  lemma SmallTurns(v: Version, m: Face, x: Cell)
    ensures Turns(v, m, 1, x) == Quarter(v, m, x)
    ensures Turns(v, m, 2, x) == Quarter(v, m, Quarter(v, m, x))
    ensures Turns(v, m, 3, x) == Quarter(v, m, Quarter(v, m, Quarter(v, m, x)))
  {
  }

  /** The clockwise quarter turn of face m in version v, by its method:
      as written, F is rotateF as the source writes it. */
  method Rotate(cube: array3<char>, v: Version, m: Face) returns (c: array3<char>)
    requires IsCube(cube)
    ensures fresh(c) && IsCube(c)
    ensures forall x {:trigger c[x.f, x.r, x.c]} :: Valid(x) ==> c[x.f, x.r, x.c] == var y := Quarter(v, m, x); cube[y.f, y.r, y.c]
  {
    match m
    case U => c := RotateU(cube);
    case D => c := RotateD(cube);
    case F =>
      if v == AsWritten {
        c := RotateFAsWritten(cube);
      } else {
        c := RotateF(cube);
      }
    case B => c := RotateB(cube);
    case L => c := RotateL(cube);
    case R => c := RotateR(cube);
  }

  /** rotateUPrime and the other primes: three clockwise quarter turns. */
  method RotatePrime(cube: array3<char>, v: Version, m: Face) returns (c: array3<char>)
    requires IsCube(cube)
    ensures fresh(c) && IsCube(c)
    ensures forall x {:trigger c[x.f, x.r, x.c]} :: Valid(x) ==> c[x.f, x.r, x.c] == var y := Turns(v, m, 3, x); cube[y.f, y.r, y.c]
  {
    var once := Rotate(cube, v, m);
    var twice := Rotate(once, v, m);
    c := Rotate(twice, v, m);
    forall x {:trigger c[x.f, x.r, x.c]} | Valid(x) ensures c[x.f, x.r, x.c] == var y := Turns(v, m, 3, x); cube[y.f, y.r, y.c] {
      SmallTurns(v, m, x);
      var y1 := Quarter(v, m, x);
      var y2 := Quarter(v, m, y1);
      assert c[x.f, x.r, x.c] == twice[y1.f, y1.r, y1.c] == once[y2.f, y2.r, y2.c];
    }
  }

  /** rotateUTwice and the other half turns: two clockwise quarter turns. */
  method RotateTwice(cube: array3<char>, v: Version, m: Face) returns (c: array3<char>)
    requires IsCube(cube)
    ensures fresh(c) && IsCube(c)
    ensures forall x {:trigger c[x.f, x.r, x.c]} :: Valid(x) ==> c[x.f, x.r, x.c] == var y := Turns(v, m, 2, x); cube[y.f, y.r, y.c]
  {
    var once := Rotate(cube, v, m);
    c := Rotate(once, v, m);
    forall x {:trigger c[x.f, x.r, x.c]} | Valid(x) ensures c[x.f, x.r, x.c] == var y := Turns(v, m, 2, x); cube[y.f, y.r, y.c] {
      SmallTurns(v, m, x);
      var y1 := Quarter(v, m, x);
      assert c[x.f, x.r, x.c] == once[y1.f, y1.r, y1.c];
    }
  }

  // ---------------------------------------------------------------------
  // Moves by index and by name

  /** Where move j of version v takes each sticker from: the face of the
      move turned Power times. An index outside the table, as for an
      unknown name, leaves the cube as it is. */
  function MoveSource(v: Version, j: int, x: Cell): (y: Cell)
    ensures Valid(x) ==> Valid(y)
  {
    if 0 <= j < 18 then Turns(v, FaceOf(j / 3), Power(j % 3), x) else x
  }

  /** The named move in version v on a copy of the cube; a copy for a name
      that is not a move. */
  method ApplyMoveWith(cube: array3<char>, v: Version, m: string) returns (c: array3<char>)
    requires IsCube(cube)
    ensures fresh(c) && IsCube(c)
    ensures forall x {:trigger c[x.f, x.r, x.c]} :: Valid(x) ==> c[x.f, x.r, x.c] == var y := MoveSource(v, NameIndex(m), x); cube[y.f, y.r, y.c]
  {
    var j := GetMoveIndex(m);
    if j < 0 {
      c := CopyCube(cube);
    } else if j % 3 == 0 {
      c := Rotate(cube, v, FaceOf(j / 3));
      forall x | Valid(x) ensures MoveSource(v, j, x) == Quarter(v, FaceOf(j / 3), x) {
        SmallTurns(v, FaceOf(j / 3), x);
      }
    } else if j % 3 == 1 {
      c := RotatePrime(cube, v, FaceOf(j / 3));
    } else {
      c := RotateTwice(cube, v, FaceOf(j / 3));
    }
  }

  /** applyMove3D as the source writes it: F, F' and F2 are made of
      rotateF as written. */
  method ApplyMove3D(cube: array3<char>, m: string) returns (c: array3<char>)
    requires IsCube(cube)
    ensures fresh(c) && IsCube(c)
    ensures forall x {:trigger c[x.f, x.r, x.c]} :: Valid(x) ==> c[x.f, x.r, x.c] == var y := MoveSource(AsWritten, NameIndex(m), x); cube[y.f, y.r, y.c]
  {
    c := ApplyMoveWith(cube, AsWritten, m);
  }

  /** Turns add up. */
  lemma {:induction false} TurnsAdd(v: Version, m: Face, a: nat, b: nat, x: Cell)
    ensures Turns(v, m, a, Turns(v, m, b, x)) == Turns(v, m, a + b, x)
  {
    if a > 0 {
      TurnsAdd(v, m, a - 1, b, x);
    }
  }

  /** Move 3f + u turns face f Power(u) times. */
  lemma MoveOfFace(v: Version, f: int, u: int, x: Cell)
    requires 0 <= f < 6 && 0 <= u < 3
    ensures MoveSource(v, 3 * f + u, x) == Turns(v, FaceOf(f), Power(u), x)
  {
    assert (3 * f + u) / 3 == f && (3 * f + u) % 3 == u;
  }

  /** Move a followed by move b of the same face f, when their turns add
      up to four, leaves every sticker where it was. */
  lemma MovePair(v: Version, f: int, a: int, b: int, x: Cell)
    requires 0 <= f < 6 && 3 * f <= a < 3 * f + 3 && 3 * f <= b < 3 * f + 3 && Valid(x)
    requires v == Corrected || f != 2
    requires Power(a - 3 * f) + Power(b - 3 * f) == 4
    ensures MoveSource(v, b, MoveSource(v, a, x)) == x
  {
    var m, u, w := FaceOf(f), a - 3 * f, b - 3 * f;
    var y := Turns(v, m, Power(u), x);
    MoveOfFace(v, f, u, x);
    assert 3 * f + u == a;
    MoveOfFace(v, f, w, y);
    assert 3 * f + w == b;
    TurnsAdd(v, m, Power(w), Power(u), x);
    if v == Corrected {
      TurnPeriod(m, x);
    } else {
      AsWrittenPeriod(m, x);
    }
  }

  /** The prime of a move undoes it, on either side, and a half turn
      undoes itself: for every face when F is corrected, and for every
      face but F (f == 2) as written. */
  lemma MoveInverses(v: Version, f: int, x: Cell)
    requires 0 <= f < 6 && Valid(x)
    requires v == Corrected || f != 2
    ensures var turn, prime, half := 3 * f, 3 * f + 1, 3 * f + 2;
      MoveSource(v, prime, MoveSource(v, turn, x)) == x &&
      MoveSource(v, turn, MoveSource(v, prime, x)) == x &&
      MoveSource(v, half, MoveSource(v, half, x)) == x
  {
    var turn, prime, half := 3 * f, 3 * f + 1, 3 * f + 2;
    MovePair(v, f, turn, prime, x);
    MovePair(v, f, prime, turn, x);
    MovePair(v, f, half, half, x);
  }

  /** As written, F' does not undo F: after F and then F' the sticker of
      U[2][2] shows at U[2][0]. */
  lemma MoveInversesAsWrittenF()
    ensures MoveSource(AsWritten, 7, MoveSource(AsWritten, 6, Cell(0, 2, 0))) == Cell(0, 2, 2)
  {
    var x := Cell(0, 2, 0);
    MoveOfFace(AsWritten, 2, 0, x);
    MoveOfFace(AsWritten, 2, 1, Turns(AsWritten, F, 1, x));
    TurnsAdd(AsWritten, F, 3, 1, x);
    AsWrittenPeriod(F, x);
  }

  /** Where a sequence of move names, applied in order in version v, takes
      each sticker from. */
  function SeqSource(v: Version, ms: seq<string>, x: Cell): (y: Cell)
    ensures Valid(x) ==> Valid(y)
  {
    if ms == [] then x else SeqSource(v, ms[..|ms| - 1], MoveSource(v, NameIndex(ms[|ms| - 1]), x))
  }

  lemma {:induction false} SeqSourceConcat(v: Version, a: seq<string>, b: seq<string>, x: Cell)
    ensures SeqSource(v, a + b, x) == SeqSource(v, a, SeqSource(v, b, x))
    decreases |b|
  {
    if b != [] {
      var t, b' := b[|b| - 1], b[..|b| - 1];
      var y := MoveSource(v, NameIndex(t), x);
      assert (a + b)[..|a + b| - 1] == a + b' && (a + b)[|a + b| - 1] == t;
      assert SeqSource(v, a + b, x) == SeqSource(v, a + b', y);
      SeqSourceConcat(v, a, b', y);
    } else {
      assert a + b == a;
    }
  }

  /** The name of move 3f on its own turns face f once. */
  lemma LetterSource(v: Version, t: string, f: int, x: Cell)
    requires 0 <= f < 6 && NameIndex(t) == 3 * f
    ensures SeqSource(v, [t], x) == Turns(v, FaceOf(f), 1, x)
  {
    assert MoveSource(v, 3 * f, x) == Turns(v, FaceOf(f), 1, x) by {
      MoveOfFace(v, f, 0, x);
    }
    assert [t][..0] == [];
  }

  /** Peeling the last of k repetitions: it turns face f first. */
  lemma RepeatStep(v: Version, t: string, f: int, k: nat, x: Cell)
    requires 0 <= f < 6 && NameIndex(t) == 3 * f && k > 0
    ensures SeqSource(v, Repeat(t, k), x) == SeqSource(v, Repeat(t, k - 1), Turns(v, FaceOf(f), 1, x))
  {
    LetterSource(v, t, f, x);
    SeqSourceConcat(v, Repeat(t, k - 1), [t], x);
  }

  /** The name of move 3f repeated k times turns face f k times. */
  lemma {:induction false} RepeatSource(v: Version, t: string, f: int, k: nat, x: Cell)
    requires 0 <= f < 6 && NameIndex(t) == 3 * f
    ensures SeqSource(v, Repeat(t, k), x) == Turns(v, FaceOf(f), k, x)
  {
    if k > 0 {
      var y := Turns(v, FaceOf(f), 1, x);
      RepeatStep(v, t, f, k, x);
      RepeatSource(v, t, f, k - 1, y);
      TurnsAdd(v, FaceOf(f), k - 1, 1, x);
    }
  }

  /** A token and its expansion move the stickers alike. */
  lemma ExpansionSource(v: Version, t: string, x: Cell)
    ensures SeqSource(v, Expansion(t), x) == MoveSource(v, NameIndex(t), x)
  {
    var j := NameIndex(t);
    if j >= 0 {
      ExpansionOfName(j);
      NameIndexOf(3 * (j / 3));
      RepeatSource(v, MOVE_NAMES[3 * (j / 3)], j / 3, Power(j % 3), x);
    } else {
      NameIndexFound(t);
      ExpansionUnknown(t);
    }
  }

  /** The rewritten solution turns the cube exactly as the solution does,
      with rotateF as written or corrected alike. */
  lemma {:induction false} ConvertSameEffect(v: Version, tokens: seq<string>, x: Cell)
    ensures SeqSource(v, Expanded(tokens), x) == SeqSource(v, tokens, x)
    decreases |tokens|
  {
    if tokens != [] {
      var t := tokens[|tokens| - 1];
      SeqSourceConcat(v, Expanded(tokens[..|tokens| - 1]), Expansion(t), x);
      ExpansionSource(v, t, x);
      ConvertSameEffect(v, tokens[..|tokens| - 1], MoveSource(v, NameIndex(t), x));
    }
  }
}
