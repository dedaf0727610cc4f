// Move names and move indices: the eighteen face turns in the order U, D,
// F, B, L, R, each as a quarter turn, its inverse and a half turn.

module Moves {
  const MOVE_NAMES: seq<string> :=
    ["U", "U'", "U2", "D", "D'", "D2", "F", "F'", "F2",
     "B", "B'", "B2", "L", "L'", "L2", "R", "R'", "R2"]

  /** The face letters, in the order of MOVE_NAMES. */
  const FACE_LETTERS: seq<char> := ['U', 'D', 'F', 'B', 'L', 'R']

  /** Clockwise quarter turns made by the three variants of a face: the
      turn, its inverse (three turns) and the half turn. */
  function Power(v: int): (k: nat)
    requires 0 <= v < 3
    ensures 1 <= k <= 3
  {
    if v == 0 then 1 else if v == 1 then 3 else 2
  }

  /** Each name is its face letter followed by nothing, ' or 2. */
  lemma NameShape(j: int)
    requires 0 <= j < 18
    ensures |MOVE_NAMES[j]| >= 1 && MOVE_NAMES[j][0] == FACE_LETTERS[j / 3]
    ensures MOVE_NAMES[j] == [FACE_LETTERS[j / 3]] + (if j % 3 == 0 then "" else if j % 3 == 1 then "'" else "2")
  {
  }

  /** The names are pairwise different. */
  lemma NamesDistinct(i: int, j: int)
    requires 0 <= i < 18 && 0 <= j < 18 && i != j
    ensures MOVE_NAMES[i] != MOVE_NAMES[j]
  {
    NameShape(i);
    NameShape(j);
    if i / 3 != j / 3 {
      assert MOVE_NAMES[i][0] != MOVE_NAMES[j][0];
    } else {
      assert i % 3 != j % 3;
    }
  }

  /** The first index from i on that carries the name, or -1. */
  function IndexFrom(name: string, i: nat): (j: int)
    requires i <= |MOVE_NAMES|
    ensures -1 <= j < |MOVE_NAMES|
    ensures j >= 0 ==> i <= j && MOVE_NAMES[j] == name && forall k :: i <= k < j ==> MOVE_NAMES[k] != name
    ensures j == -1 ==> forall k :: i <= k < |MOVE_NAMES| ==> MOVE_NAMES[k] != name
    decreases |MOVE_NAMES| - i
  {
    if i == |MOVE_NAMES| then -1
    else if MOVE_NAMES[i] == name then i
    else IndexFrom(name, i + 1)
  }

  /** The index of a move name, -1 for anything else. */
  function NameIndex(name: string): (j: int)
    ensures -1 <= j < 18
  {
    IndexFrom(name, 0)
  }

  /** Each name is found at its own index. */
  lemma NameIndexOf(j: int)
    requires 0 <= j < 18
    ensures NameIndex(MOVE_NAMES[j]) == j
  {
    var k := NameIndex(MOVE_NAMES[j]);
    if k != j {
      NamesDistinct(j, k);
    }
  }

  /** NameIndex finds exactly the listed names. */
  lemma NameIndexFound(name: string)
    ensures NameIndex(name) >= 0 <==> name in MOVE_NAMES
  {
  }

  /** getMoveIndex: a linear scan of MOVE_NAMES. */
  method GetMoveIndex(moveName: string) returns (j: int)
    ensures j == NameIndex(moveName)
    ensures 0 <= j < 18 ==> MOVE_NAMES[j] == moveName
    ensures j == -1 <==> moveName !in MOVE_NAMES
  {
    NameIndexFound(moveName);
    var i := 0;
    while i < |MOVE_NAMES|
      invariant 0 <= i <= |MOVE_NAMES|
      invariant IndexFrom(moveName, i) == NameIndex(moveName)
    {
      if MOVE_NAMES[i] == moveName {
        return i;
      }
      i := i + 1;
    }
    return -1;
  }

  /** isRedundant: two moves turn the same face. A negative index (an
      unknown name) is never redundant. */
  function IsRedundant(lastMove: int, currentMove: int): (r: bool)
  {
    if lastMove < 0 || currentMove < 0 then false
    else lastMove / 3 == currentMove / 3
  }

  /** For move indices, redundancy is exactly "the names start with the
      same face letter". */
  lemma RedundantSameLetter(a: int, b: int)
    requires -1 <= a < 18 && -1 <= b < 18
    ensures IsRedundant(a, b) <==> a >= 0 && b >= 0 && MOVE_NAMES[a][0] == MOVE_NAMES[b][0]
  {
    if a >= 0 && b >= 0 {
      NameShape(a);
      NameShape(b);
    }
  }

  /** Redundancy is symmetric and holds between the variants of a face. */
  lemma RedundantSymmetric(a: int, b: int)
    ensures IsRedundant(a, b) == IsRedundant(b, a)
    ensures a >= 0 ==> IsRedundant(a, a)
  {
  }

  // ---------------------------------------------------------------------
  // Rewriting a solution into quarter turns

  /** The letters convertToAllowedMoves writes for one token: a quarter
      turn stays, a prime becomes three quarter turns, a half turn two,
      and anything else is dropped. */
  function Expansion(token: string): seq<string>
  {
    if token == "U" then ["U"]
    else if token == "U'" then ["U", "U", "U"]
    else if token == "U2" then ["U", "U"]
    else if token == "D" then ["D"]
    else if token == "D'" then ["D", "D", "D"]
    else if token == "D2" then ["D", "D"]
    else if token == "F" then ["F"]
    else if token == "F'" then ["F", "F", "F"]
    else if token == "F2" then ["F", "F"]
    else if token == "B" then ["B"]
    else if token == "B'" then ["B", "B", "B"]
    else if token == "B2" then ["B", "B"]
    else if token == "L" then ["L"]
    else if token == "L'" then ["L", "L", "L"]
    else if token == "L2" then ["L", "L"]
    else if token == "R" then ["R"]
    else if token == "R'" then ["R", "R", "R"]
    else if token == "R2" then ["R", "R"]
    else []
  }

  /** k copies of one token. */
  function Repeat(t: string, k: nat): (ts: seq<string>)
    ensures |ts| == k && forall i :: 0 <= i < k ==> ts[i] == t
  {
    if k == 0 then [] else Repeat(t, k - 1) + [t]
  }

  /** A move name expands to its face letter repeated Power times. */
  lemma ExpansionOfName(j: int)
    requires 0 <= j < 18
    ensures Expansion(MOVE_NAMES[j]) == Repeat(MOVE_NAMES[3 * (j / 3)], Power(j % 3))
  {
    if j < 3 {
      ExpansionU(j);
    } else if j < 6 {
      ExpansionD(j);
    } else if j < 9 {
      ExpansionF(j);
    } else if j < 12 {
      ExpansionB(j);
    } else if j < 15 {
      ExpansionL(j);
    } else {
      ExpansionR(j);
    }
  }

  lemma ExpansionU(j: int)
    requires 0 <= j < 3
    ensures Expansion(MOVE_NAMES[j]) == Repeat(MOVE_NAMES[3 * (j / 3)], Power(j % 3))
  {
    if j == 0 {
      assert MOVE_NAMES[j] == "U";
    } else if j == 1 {
      assert MOVE_NAMES[j] == "U'";
    } else {
      assert MOVE_NAMES[j] == "U2";
    }
  }

  lemma ExpansionD(j: int)
    requires 3 <= j < 6
    ensures Expansion(MOVE_NAMES[j]) == Repeat(MOVE_NAMES[3 * (j / 3)], Power(j % 3))
  {
    if j == 3 {
      assert MOVE_NAMES[j] == "D";
    } else if j == 4 {
      assert MOVE_NAMES[j] == "D'";
    } else {
      assert MOVE_NAMES[j] == "D2";
    }
  }

  lemma ExpansionF(j: int)
    requires 6 <= j < 9
    ensures Expansion(MOVE_NAMES[j]) == Repeat(MOVE_NAMES[3 * (j / 3)], Power(j % 3))
  {
    if j == 6 {
      assert MOVE_NAMES[j] == "F";
    } else if j == 7 {
      assert MOVE_NAMES[j] == "F'";
    } else {
      assert MOVE_NAMES[j] == "F2";
    }
  }

  lemma ExpansionB(j: int)
    requires 9 <= j < 12
    ensures Expansion(MOVE_NAMES[j]) == Repeat(MOVE_NAMES[3 * (j / 3)], Power(j % 3))
  {
    if j == 9 {
      assert MOVE_NAMES[j] == "B";
    } else if j == 10 {
      assert MOVE_NAMES[j] == "B'";
    } else {
      assert MOVE_NAMES[j] == "B2";
    }
  }

  lemma ExpansionL(j: int)
    requires 12 <= j < 15
    ensures Expansion(MOVE_NAMES[j]) == Repeat(MOVE_NAMES[3 * (j / 3)], Power(j % 3))
  {
    if j == 12 {
      assert MOVE_NAMES[j] == "L";
    } else if j == 13 {
      assert MOVE_NAMES[j] == "L'";
    } else {
      assert MOVE_NAMES[j] == "L2";
    }
  }

  lemma ExpansionR(j: int)
    requires 15 <= j < 18
    ensures Expansion(MOVE_NAMES[j]) == Repeat(MOVE_NAMES[3 * (j / 3)], Power(j % 3))
  {
    if j == 15 {
      assert MOVE_NAMES[j] == "R";
    } else if j == 16 {
      assert MOVE_NAMES[j] == "R'";
    } else {
      assert MOVE_NAMES[j] == "R2";
    }
  }

  /** Anything but a move name expands to nothing. */
  lemma ExpansionUnknown(t: string)
    requires t !in MOVE_NAMES
    ensures Expansion(t) == []
  {
  }

  /** The expansions of the tokens, in order. */
  function Expanded(tokens: seq<string>): seq<string>
  {
    if tokens == [] then [] else Expanded(tokens[..|tokens| - 1]) + Expansion(tokens[|tokens| - 1])
  }

  /** convertToAllowedMoves on the tokens of the solution: the text split
      on spaces, rejoined with single spaces. */
  method ConvertToAllowedMoves(solution: seq<string>) returns (out: seq<string>)
    ensures out == Expanded(solution)
  {
    out := [];
    for i := 0 to |solution|
      invariant out == Expanded(solution[..i])
    {
      assert solution[..i + 1][..i] == solution[..i];
      out := out + Expansion(solution[i]);
    }
    assert solution[..|solution|] == solution;
  }

  /** The quarter turn of the face of move j is a single face letter. */
  lemma QuarterName(j: int)
    requires 0 <= j < 18
    ensures |MOVE_NAMES[3 * (j / 3)]| == 1 && MOVE_NAMES[3 * (j / 3)][0] in FACE_LETTERS
  {
    var f := j / 3;
    NameShape(3 * f);
    assert (3 * f) / 3 == f && (3 * f) % 3 == 0;
  }

  /** The rewritten solution holds quarter turns only: single face
      letters. */
  lemma {:induction false} ExpandedQuarterTurns(tokens: seq<string>)
    ensures forall t :: t in Expanded(tokens) ==> |t| == 1 && t[0] in FACE_LETTERS
  {
    if tokens != [] {
      var front, last := tokens[..|tokens| - 1], tokens[|tokens| - 1];
      ExpandedQuarterTurns(front);
      var j := NameIndex(last);
      if j >= 0 {
        ExpansionOfName(j);
        QuarterName(j);
      } else {
        NameIndexFound(last);
        ExpansionUnknown(last);
      }
      assert forall t :: t in Expansion(last) ==> |t| == 1 && t[0] in FACE_LETTERS;
      assert Expanded(tokens) == Expanded(front) + Expansion(last);
    }
  }
}
