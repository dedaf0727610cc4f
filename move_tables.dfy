// The move tables of the solver: for each of the 18 moves, where every
// corner and edge goes and how much it twists or flips
// (initializeMoveTables), and the hand-built table of the eight U- and
// D-layer edges used by phase 2 (buildUdEdgeMoveTable, apply4Cycle).

module MoveTables {
  import opened Wrappers
  import opened Lehmer
  import opened ScatterRows

  /** Number of moves: U U' U2 D D' D2 F F' F2 B B' B2 L L' L2 R R' R2. */
  const MOVE_COUNT := 18

  /** The cubie view of a cube (CompactCube): the piece held by each slot
      and its orientation, for the 8 corners and the 12 edges. */
  datatype Cubies = Cubies(cp: seq<int>, co: seq<int>, ep: seq<int>, eo: seq<int>)

  /** The move tables as the transitions read them, one row per move:
      corner[m][c] is the slot corner c goes to under move m, cornerOri[m][c]
      the twist it picks up; edge and edgeOri likewise for the 12 edges;
      udEdge[m][e] the slot of U/D-layer edge e in phase 2. */
  datatype Tables = Tables(corner: seq<seq<int>>, cornerOri: seq<seq<int>>,
                           edge: seq<seq<int>>, edgeOri: seq<seq<int>>,
                           udEdge: seq<seq<int>>)

  /** 18 rows, each a row of n slots in [0, n). */
  ghost predicate SlotRows(t: seq<seq<int>>, n: nat)
  {
    |t| == MOVE_COUNT && forall m :: 0 <= m < MOVE_COUNT ==> InRange(t[m], n)
  }

  /** 18 rows of n non-negative twists. */
  ghost predicate TwistRows(t: seq<seq<int>>, n: nat)
  {
    |t| == MOVE_COUNT &&
    forall m :: 0 <= m < MOVE_COUNT ==> |t[m]| == n && forall i :: 0 <= i < n ==> t[m][i] >= 0
  }

  /** The shape every transition needs: each index it reads exists. */
  ghost predicate WellFormed(T: Tables)
  {
    SlotRows(T.corner, 8) && TwistRows(T.cornerOri, 8) &&
    SlotRows(T.edge, 12) && TwistRows(T.edgeOri, 12) &&
    SlotRows(T.udEdge, 8)
  }

  /** Row m of a two-dimensional table. */
  function Row(tbl: array2<int>, m: nat): (r: seq<int>)
    requires m < tbl.Length0
    reads tbl
    ensures |r| == tbl.Length1
    ensures forall i :: 0 <= i < tbl.Length1 ==> r[i] == tbl[m, i]
  {
    seq(tbl.Length1, i requires 0 <= i < tbl.Length1 reads tbl => tbl[m, i])
  }

  // ---------------------------------------------------------------------
  // initializeMoveTables

  /** The first slot t in [from, n) with p[t] == x, if any. */
  function FindFrom(p: seq<int>, x: int, from: nat, n: nat): (r: Option<nat>)
    requires from <= n <= |p|
    ensures r.Some? ==> from <= r.value < n && p[r.value] == x
    ensures r.Some? ==> forall j :: from <= j < r.value ==> p[j] != x
    ensures r.None? ==> forall j :: from <= j < n ==> p[j] != x
    decreases n - from
  {
    if from == n then None
    else if p[from] == x then Some(from)
    else FindFrom(p, x, from + 1, n)
  }

  /** Where piece x sits in p, searching slots 0..n-1 in order. */
  function Find(p: seq<int>, x: int, n: nat): Option<nat>
    requires n <= |p|
  {
    FindFrom(p, x, 0, n)
  }

  /** The slot recorded for each piece: where it sits in p, or 0 (the
      untouched default) when it is nowhere. */
  function MoveRow(p: seq<int>, n: nat): (row: seq<int>)
    requires n <= |p|
    ensures |row| == n
  {
    seq(n, c => match Find(p, c, n) case Some(t) => t case None => 0)
  }

  /** The orientation recorded for each piece: that of the slot it sits in. */
  function TwistRow(p: seq<int>, o: seq<int>, n: nat): (row: seq<int>)
    requires n <= |p| && n <= |o|
    ensures |row| == n
  {
    seq(n, c => match Find(p, c, n) case Some(t) => o[t] case None => 0)
  }

  /** When the moved cube holds a permutation of the pieces, the recorded row
      is its inverse: a bijection that sends each piece to the slot holding it. */
  lemma MoveRowInverse(p: seq<int>, n: nat)
    requires |p| == n && IsPermutation(p, n)
    ensures IsBijection(MoveRow(p, n), n)
    ensures forall c :: 0 <= c < n ==> p[MoveRow(p, n)[c]] == c
  {
    var row := MoveRow(p, n);
    forall c | 0 <= c < n ensures Find(p, c, n).Some? && p[row[c]] == c && 0 <= row[c] < n {
      assert c == Identity(n)[c];
      assert c in multiset(Identity(n));
      assert c in multiset(p);
      var t :| 0 <= t < n && p[t] == c;
      assert Find(p, c, n).Some?;
    }
    forall a, b | 0 <= a < b < n ensures row[a] != row[b] {
      assert p[row[a]] == a && p[row[b]] == b;
    }
  }

  /** Rows 0..k-1 of tbl and ori hold the recorded rows, the rest is zero. */
  ghost predicate Recorded(tbl: array2<int>, ori: array2<int>, rows: seq<seq<int>>, twists: seq<seq<int>>, k: nat)
    reads tbl, ori
  {
    tbl.Length0 == ori.Length0 == |rows| == |twists| && tbl.Length1 == ori.Length1 &&
    (forall m :: 0 <= m < |rows| ==> |rows[m]| == |twists[m]| == tbl.Length1) &&
    forall m, c :: 0 <= m < tbl.Length0 && 0 <= c < tbl.Length1 ==>
      tbl[m, c] == (if m < k then rows[m][c] else 0) &&
      ori[m, c] == (if m < k then twists[m][c] else 0)
  }

  /** For each piece of the solved cube moved by one move, record where it
      went and with which orientation (the corner loop and the edge loop of
      initializeMoveTables share this shape). The row starts as zero, and
      the entries of pieces found nowhere stay zero. */
  method RecordPieces(tbl: array2<int>, ori: array2<int>, move: nat, p: seq<int>, o: seq<int>, n: nat,
                      ghost rows: seq<seq<int>>, ghost twists: seq<seq<int>>)
    requires tbl != ori && tbl.Length1 == n && move < tbl.Length0 && |p| == n && |o| == n
    requires Recorded(tbl, ori, rows, twists, move)
    requires rows[move] == MoveRow(p, n) && twists[move] == TwistRow(p, o, n)
    modifies tbl, ori
    ensures Recorded(tbl, ori, rows, twists, move + 1)
  {
    for c := 0 to n
      invariant forall m, c' :: 0 <= m < tbl.Length0 && 0 <= c' < n ==>
        tbl[m, c'] == (if m < move || (m == move && c' < c) then rows[m][c'] else 0) &&
        ori[m, c'] == (if m < move || (m == move && c' < c) then twists[m][c'] else 0)
    {
      var target := 0;
      while target < n
        invariant 0 <= target <= n
        invariant FindFrom(p, c, target, n) == Find(p, c, n)
        invariant forall m, c' :: 0 <= m < tbl.Length0 && 0 <= c' < n ==>
          tbl[m, c'] == (if m < move || (m == move && c' < c) then rows[m][c'] else 0) &&
          ori[m, c'] == (if m < move || (m == move && c' < c) then twists[m][c'] else 0)
      {
        if p[target] == c {
          tbl[move, c] := target;
          ori[move, c] := o[target];
          break;
        }
        target := target + 1;
      }
    }
  }

  function CornerRows(moved: seq<Cubies>): (rows: seq<seq<int>>)
    requires |moved| == MOVE_COUNT && forall m :: 0 <= m < MOVE_COUNT ==> |moved[m].cp| == 8
  {
    seq(MOVE_COUNT, m requires 0 <= m < MOVE_COUNT => MoveRow(moved[m].cp, 8))
  }

  function CornerTwistRows(moved: seq<Cubies>): (rows: seq<seq<int>>)
    requires |moved| == MOVE_COUNT && forall m :: 0 <= m < MOVE_COUNT ==> |moved[m].cp| == 8 == |moved[m].co|
  {
    seq(MOVE_COUNT, m requires 0 <= m < MOVE_COUNT => TwistRow(moved[m].cp, moved[m].co, 8))
  }

  function EdgeRows(moved: seq<Cubies>): (rows: seq<seq<int>>)
    requires |moved| == MOVE_COUNT && forall m :: 0 <= m < MOVE_COUNT ==> |moved[m].ep| == 12
  {
    seq(MOVE_COUNT, m requires 0 <= m < MOVE_COUNT => MoveRow(moved[m].ep, 12))
  }

  function EdgeFlipRows(moved: seq<Cubies>): (rows: seq<seq<int>>)
    requires |moved| == MOVE_COUNT && forall m :: 0 <= m < MOVE_COUNT ==> |moved[m].ep| == 12 == |moved[m].eo|
  {
    seq(MOVE_COUNT, m requires 0 <= m < MOVE_COUNT => TwistRow(moved[m].ep, moved[m].eo, 12))
  }

  /** initializeMoveTables: moved[m] is the solved cube after move m (the
      3D turn and the conversion to cubies are not part of this model).
      The four tables start as zero, Java's default. */
  method InitializeMoveTables(moved: seq<Cubies>)
    returns (corner: array2<int>, cornerOri: array2<int>, edge: array2<int>, edgeOri: array2<int>)
    requires |moved| == MOVE_COUNT
    requires forall m :: 0 <= m < MOVE_COUNT ==>
      |moved[m].cp| == 8 && |moved[m].co| == 8 && |moved[m].ep| == 12 && |moved[m].eo| == 12
    ensures fresh(corner) && fresh(cornerOri) && fresh(edge) && fresh(edgeOri)
    ensures Recorded(corner, cornerOri, CornerRows(moved), CornerTwistRows(moved), MOVE_COUNT)
    ensures Recorded(edge, edgeOri, EdgeRows(moved), EdgeFlipRows(moved), MOVE_COUNT)
  {
    corner := new int[MOVE_COUNT, 8]((m, c) => 0);
    cornerOri := new int[MOVE_COUNT, 8]((m, c) => 0);
    edge := new int[MOVE_COUNT, 12]((m, e) => 0);
    edgeOri := new int[MOVE_COUNT, 12]((m, e) => 0);
    for move := 0 to MOVE_COUNT
      invariant Recorded(corner, cornerOri, CornerRows(moved), CornerTwistRows(moved), move)
      invariant Recorded(edge, edgeOri, EdgeRows(moved), EdgeFlipRows(moved), move)
    {
      var cube := moved[move];
      RecordPieces(corner, cornerOri, move, cube.cp, cube.co, 8, CornerRows(moved), CornerTwistRows(moved));
      RecordPieces(edge, edgeOri, move, cube.ep, cube.eo, 12, EdgeRows(moved), EdgeFlipRows(moved));
    }
  }

  /** Whatever the moved cube holds, every recorded slot lies in [0, n):
      either the slot where the piece was found or the default 0. */
  lemma RecordedSlotsInRange(moved: seq<Cubies>)
    requires |moved| == MOVE_COUNT
    requires forall m :: 0 <= m < MOVE_COUNT ==> |moved[m].cp| == 8 && |moved[m].ep| == 12
    ensures SlotRows(CornerRows(moved), 8) && SlotRows(EdgeRows(moved), 12)
  {
    forall m, c | 0 <= m < MOVE_COUNT && 0 <= c < 8 ensures 0 <= CornerRows(moved)[m][c] < 8 {
      assert CornerRows(moved)[m] == MoveRow(moved[m].cp, 8);
    }
    forall m, e | 0 <= m < MOVE_COUNT && 0 <= e < 12 ensures 0 <= EdgeRows(moved)[m][e] < 12 {
      assert EdgeRows(moved)[m] == MoveRow(moved[m].ep, 12);
    }
  }

  // ---------------------------------------------------------------------
  // buildUdEdgeMoveTable and apply4Cycle

  /** The four sequential writes of apply4Cycle on one row: entry c0 takes
      the value of c1, c1 that of c2, c2 that of c3, and c3 the saved c0. */
  function Cycle4(row: seq<int>, c: seq<int>): (r: seq<int>)
    requires |c| == 4 && forall k :: 0 <= k < 4 ==> 0 <= c[k] < |row|
    ensures |r| == |row|
    ensures InRange(row, |row|) ==> InRange(r, |row|)
  {
    var r1 := row[c[0] := row[c[1]]];
    var r2 := r1[c[1] := r1[c[2]]];
    var r3 := r2[c[2] := r2[c[3]]];
    r3[c[3] := row[c[0]]]
  }

  /** Four distinct slots. */
  predicate Distinct4(c: seq<int>)
    requires |c| == 4
  {
    c[0] != c[1] && c[0] != c[2] && c[0] != c[3] && c[1] != c[2] && c[1] != c[3] && c[2] != c[3]
  }

  /** On four distinct slots, apply4Cycle rotates their entries by one place
      and leaves every other entry alone. */
  lemma Cycle4Rotates(row: seq<int>, c: seq<int>)
    requires |c| == 4 && (forall k :: 0 <= k < 4 ==> 0 <= c[k] < |row|) && Distinct4(c)
    ensures forall k :: 0 <= k < 4 ==> Cycle4(row, c)[c[k]] == row[c[(k + 1) % 4]]
    ensures forall i :: 0 <= i < |row| && i !in c ==> Cycle4(row, c)[i] == row[i]
  {
  }

  /** The slot whose old entry slot i holds after the four writes. */
  function CycleSource(c: seq<int>, i: int): int
    requires |c| == 4
  {
    if i == c[0] then c[1] else if i == c[1] then c[2] else if i == c[2] then c[3] else if i == c[3] then c[0] else i
  }

  /** On four distinct slots, the four writes permute the entries of a row,
      so a bijective row stays bijective. */
  lemma Cycle4Bijective(row: seq<int>, c: seq<int>, n: nat)
    requires |c| == 4 && (forall k :: 0 <= k < 4 ==> 0 <= c[k] < n) && Distinct4(c)
    requires IsBijection(row, n)
    ensures IsBijection(Cycle4(row, c), n)
  {
    var r := Cycle4(row, c);
    assert forall i :: 0 <= i < n ==> r[i] == row[CycleSource(c, i)] && 0 <= CycleSource(c, i) < n;
    forall a, b | 0 <= a < b < n ensures r[a] != r[b] {
      assert CycleSource(c, a) != CycleSource(c, b);
    }
  }

  /** The table holds exactly the given rows. */
  ghost predicate HoldsRows(tbl: array2<int>, rows: seq<seq<int>>)
    reads tbl
  {
    |rows| == tbl.Length0 &&
    (forall m :: 0 <= m < |rows| ==> |rows[m]| == tbl.Length1) &&
    forall m, i :: 0 <= m < tbl.Length0 && 0 <= i < tbl.Length1 ==> tbl[m, i] == rows[m][i]
  }

  /** apply4Cycle: rotate four entries of row move of the table; the ghost
      rows follow the table's contents. */
  method Apply4Cycle(tbl: array2<int>, move: nat, cycle: seq<int>, ghost rows: seq<seq<int>>)
    requires move < tbl.Length0 && |cycle| == 4
    requires forall k :: 0 <= k < 4 ==> 0 <= cycle[k] < tbl.Length1
    requires HoldsRows(tbl, rows)
    modifies tbl
    ensures HoldsRows(tbl, rows[move := Cycle4(rows[move], cycle)])
  {
    ghost var row := Row(tbl, move);
    assert row == rows[move];
    var temp := tbl[move, cycle[0]];
    tbl[move, cycle[0]] := tbl[move, cycle[1]];
    tbl[move, cycle[1]] := tbl[move, cycle[2]];
    tbl[move, cycle[2]] := tbl[move, cycle[3]];
    tbl[move, cycle[3]] := temp;
    assert Row(tbl, move) == Cycle4(row, cycle);
  }

  /** Row composition: the slot a piece reaches after the move of row a
      and then the move of row b. */
  function Compose(a: seq<int>, b: seq<int>): (r: seq<int>)
    requires forall i :: 0 <= i < |a| ==> 0 <= a[i] < |b|
    ensures |r| == |a|
  {
    seq(|a|, i requires 0 <= i < |a| => b[a[i]])
  }

  const IDENTITY_8: seq<int> := [0, 1, 2, 3, 4, 5, 6, 7]

  const U_CYCLE: seq<int> := [1, 0, 3, 2]
  const U_PRIME_CYCLE: seq<int> := [2, 3, 0, 1]
  const U2_CYCLE: seq<int> := [3, 2, 1, 0]
  const D_CYCLE: seq<int> := [5, 4, 7, 6]
  const D_PRIME_CYCLE: seq<int> := [6, 7, 4, 5]
  const D2_CYCLE: seq<int> := [7, 6, 5, 4]

  /** The six 4-cycles buildUdEdgeMoveTable applies, to rows 0..5. */
  const UD_CYCLES: seq<seq<int>> := [U_CYCLE, U_PRIME_CYCLE, U2_CYCLE, D_CYCLE, D_PRIME_CYCLE, D2_CYCLE]

  /** The rows buildUdEdgeMoveTable produces as written: a 4-cycle of the
      identity for each of U, U', U2, D, D', D2 (moves 0..5), the identity
      for the rest. */
  function UdRowAsWritten(m: nat): (r: seq<int>)
    ensures InRange(r, 8)
  {
    if m < 6 then Cycle4(IDENTITY_8, UD_CYCLES[m]) else IDENTITY_8
  }

  lemma UdRowAsWrittenValues()
    ensures UdRowAsWritten(0) == [3, 0, 1, 2, 4, 5, 6, 7] && UdRowAsWritten(1) == [1, 2, 3, 0, 4, 5, 6, 7]
    ensures UdRowAsWritten(2) == [3, 0, 1, 2, 4, 5, 6, 7]
    ensures UdRowAsWritten(3) == [0, 1, 2, 3, 7, 4, 5, 6] && UdRowAsWritten(4) == [0, 1, 2, 3, 5, 6, 7, 4]
    ensures UdRowAsWritten(5) == [0, 1, 2, 3, 7, 4, 5, 6]
  {
  }

  /** The table once the first k cycles have been applied. */
  function UdRowsAfter(k: nat): (r: seq<seq<int>>)
    ensures |r| == MOVE_COUNT && forall m :: 0 <= m < MOVE_COUNT ==> |r[m]| == 8
  {
    seq(MOVE_COUNT, m requires 0 <= m => if m < k then UdRowAsWritten(m) else IDENTITY_8)
  }

  lemma UdRowsStep(k: nat)
    requires k < 6
    ensures UdRowsAfter(k)[k := Cycle4(UdRowsAfter(k)[k], UD_CYCLES[k])] == UdRowsAfter(k + 1)
  {
  }

  /** buildUdEdgeMoveTable as written: identity rows, then the six
      4-cycles applied to rows 0..5 in order. */
  method BuildUdEdgeMoveTableAsWritten() returns (tbl: array2<int>)
    ensures fresh(tbl) && HoldsRows(tbl, UdRowsAfter(6))
  {
    tbl := new int[MOVE_COUNT, 8]((m, i) => i);
    forall m, i | 0 <= m < MOVE_COUNT && 0 <= i < 8 ensures tbl[m, i] == UdRowsAfter(0)[m][i] {
      assert UdRowsAfter(0)[m] == IDENTITY_8;
    }
    for k := 0 to 6
      invariant HoldsRows(tbl, UdRowsAfter(k))
    {
      Apply4Cycle(tbl, k, UD_CYCLES[k], UdRowsAfter(k));
      UdRowsStep(k);
    }
  }

  /** Every row of the table as written is a bijection of the eight
      U/D-layer edge slots, and the twelve moves after D2 are the identity. */
  lemma UdRowsAsWrittenBijective()
    ensures forall m :: 0 <= m < MOVE_COUNT ==> IsBijection(UdRowAsWritten(m), 8)
    ensures forall m :: 6 <= m < MOVE_COUNT ==> UdRowAsWritten(m) == IDENTITY_8
  {
    forall m | 0 <= m < 6 ensures IsBijection(UdRowAsWritten(m), 8) {
      Cycle4Bijective(IDENTITY_8, UD_CYCLES[m], 8);
    }
  }

  /** As written, the U2 row is the U row and the D2 row the D row, so a
      half turn moves the edges like a quarter turn; a half turn should be
      the quarter turn done twice, which is a different row. */
  lemma HalfTurnRowsAsWritten()
    ensures UdRowAsWritten(2) == UdRowAsWritten(0) && UdRowAsWritten(5) == UdRowAsWritten(3)
    ensures UdRowAsWritten(2) != Compose(UdRowAsWritten(0), UdRowAsWritten(0))
    ensures UdRowAsWritten(5) != Compose(UdRowAsWritten(3), UdRowAsWritten(3))
  {
    UdRowAsWrittenValues();
    assert Compose(UdRowAsWritten(0), UdRowAsWritten(0))[0] == 2;
    assert Compose(UdRowAsWritten(3), UdRowAsWritten(3))[4] == 6;
  }

  /** The corrected rows: the U2 and D2 cycles are applied twice, so that a
      half turn is a quarter turn done twice; the other rows are as written. */
  function UdRow(m: nat): (r: seq<int>)
    ensures InRange(r, 8)
  {
    if m == 2 || m == 5 then Cycle4(Cycle4(IDENTITY_8, UD_CYCLES[m]), UD_CYCLES[m])
    else UdRowAsWritten(m)
  }

  function UdRowsFixedAfter(k: nat): (r: seq<seq<int>>)
    ensures |r| == MOVE_COUNT && forall m :: 0 <= m < MOVE_COUNT ==> |r[m]| == 8
  {
    seq(MOVE_COUNT, m requires 0 <= m => if m < k then UdRow(m) else IDENTITY_8)
  }

  lemma UdRowsFixedStep(k: nat)
    requires k < 6
    ensures k != 2 && k != 5 ==>
      UdRowsFixedAfter(k)[k := Cycle4(UdRowsFixedAfter(k)[k], UD_CYCLES[k])] == UdRowsFixedAfter(k + 1)
    ensures k == 2 || k == 5 ==>
      var once := Cycle4(UdRowsFixedAfter(k)[k], UD_CYCLES[k]);
      UdRowsFixedAfter(k)[k := once][k := Cycle4(once, UD_CYCLES[k])] == UdRowsFixedAfter(k + 1)
  {
  }

  /** buildUdEdgeMoveTable with the half-turn rows corrected: the U2 and D2
      cycles are applied twice. */
  method BuildUdEdgeMoveTable() returns (tbl: array2<int>)
    ensures fresh(tbl) && HoldsRows(tbl, UdRowsFixedAfter(6))
  {
    tbl := new int[MOVE_COUNT, 8]((m, i) => i);
    forall m, i | 0 <= m < MOVE_COUNT && 0 <= i < 8 ensures tbl[m, i] == UdRowsFixedAfter(0)[m][i] {
      assert UdRowsFixedAfter(0)[m] == IDENTITY_8;
    }
    for k := 0 to 6
      invariant HoldsRows(tbl, UdRowsFixedAfter(k))
    {
      ghost var rows := UdRowsFixedAfter(k);
      Apply4Cycle(tbl, k, UD_CYCLES[k], rows);
      if k == 2 || k == 5 {
        rows := rows[k := Cycle4(rows[k], UD_CYCLES[k])];
        Apply4Cycle(tbl, k, UD_CYCLES[k], rows);
      }
      UdRowsFixedStep(k);
    }
  }

  /** The corrected rows, slot by slot. */
  lemma UdRowValues()
    ensures UdRow(0) == [3, 0, 1, 2, 4, 5, 6, 7] && UdRow(1) == [1, 2, 3, 0, 4, 5, 6, 7]
    ensures UdRow(2) == [2, 3, 0, 1, 4, 5, 6, 7] && UdRow(3) == [0, 1, 2, 3, 7, 4, 5, 6]
    ensures UdRow(4) == [0, 1, 2, 3, 5, 6, 7, 4] && UdRow(5) == [0, 1, 2, 3, 6, 7, 4, 5]
    ensures forall m :: 6 <= m ==> UdRow(m) == IDENTITY_8
  {
    UdRowAsWrittenValues();
  }

  /** Every corrected row is a bijection of the eight U/D-layer edge slots;
      the twelve moves after D2 leave every such edge in place. */
  lemma UdRowsBijective()
    ensures forall m :: 0 <= m < MOVE_COUNT ==> IsBijection(UdRow(m), 8)
    ensures forall m :: 6 <= m < MOVE_COUNT ==> UdRow(m) == IDENTITY_8
  {
    forall m | 0 <= m < 6 ensures IsBijection(UdRow(m), 8) {
      Cycle4Bijective(IDENTITY_8, UD_CYCLES[m], 8);
      if m == 2 || m == 5 {
        Cycle4Bijective(Cycle4(IDENTITY_8, UD_CYCLES[m]), UD_CYCLES[m], 8);
      }
    }
  }

  /** A half turn is the quarter turn done twice, and is its own inverse
      without being the identity. */
  lemma UdHalfTurns()
    ensures UdRow(2) == Compose(UdRow(0), UdRow(0)) && UdRow(5) == Compose(UdRow(3), UdRow(3))
    ensures Compose(UdRow(2), UdRow(2)) == IDENTITY_8 && UdRow(2) != IDENTITY_8
    ensures Compose(UdRow(5), UdRow(5)) == IDENTITY_8 && UdRow(5) != IDENTITY_8
  {
    UdRowValues();
    assert UdRow(2)[0] != 0;
    assert UdRow(5)[4] != 4;
  }

  /** U' undoes U and D' undoes D, in either order. */
  lemma UdInverses()
    ensures Compose(UdRow(0), UdRow(1)) == IDENTITY_8 && Compose(UdRow(1), UdRow(0)) == IDENTITY_8
    ensures Compose(UdRow(3), UdRow(4)) == IDENTITY_8 && Compose(UdRow(4), UdRow(3)) == IDENTITY_8
  {
    UdRowValues();
  }

  /** U permutes only the U-layer slots 0..3 and D only the D-layer slots 4..7. */
  lemma UdRowsLayers()
    ensures forall i :: 0 <= i < 8 ==> (UdRow(0)[i] < 4 <==> i < 4) && (i >= 4 ==> UdRow(0)[i] == i)
    ensures forall i :: 0 <= i < 8 ==> (UdRow(3)[i] < 4 <==> i < 4) && (i < 4 ==> UdRow(3)[i] == i)
  {
    UdRowValues();
  }
}
