# Two-phase Rubik's cube solver: tables, turns and search

This project models the table-driven core of a two-phase Rubik's cube solver written in Java. Each part is proved against a specification.

- **Lehmer codes** (`lehmer.dfy`): the factorial-number-system bijection between permutations of `0..n-1` and `[0, n!)`. `getLehmerCode`, `decodeLehmer` and `factorial` are loops over arrays, proved against `Code` and `Decode`.
- **Coordinate transitions** (`coordinates.dfy`): the four maps from a coordinate and a move to the next coordinate.
  - Corner orientations are seven base-3 digits; the eighth is implied by the mod-3 sum.
  - Edge orientations are eleven bits; the twelfth is the parity of the rest.
  - Corner and U/D-edge permutations are Lehmer codes.
- **Move tables** (`move_tables.dfy`, `scatter.dfy`):
  - `initializeMoveTables` records, for each move, where each piece of the solved cube went;
  - `apply4Cycle` and `buildUdEdgeMoveTable` build the phase-2 table of the eight U- and D-layer edges.
- **Pruning tables** (`pruning.dfy`): the four breadth-first searches that label each coordinate with its distance from the solved coordinate 0, stored in Java bytes with 99 as the "not reached" marker.
- **Facelet turns** (`rotation.dfy`, `cube_state.dfy`):
  - `rotateFaceCW` and the six quarter turns on a `6x3x3` char array;
  - primes and half turns, `applyMove3D`;
  - `copyCube` and `hashCube`, whose hash is computed in 64-bit two's-complement arithmetic.
- **Move names and search** (`moves.dfy`, `search.dfy`):
  - `getMoveIndex`, `isRedundant` and `convertToAllowedMoves`;
  - the IDA* `search` and `idaSearch`;
  - `solveTwoPhase`, over an abstract puzzle state.

A sticker is named by a `Cell(f, r, c)`. A turn is described by `From(m, x)`, the cell whose sticker lands on `x`. The array methods are proved to move stickers exactly as `From` says. The laws of turns (period four, inverses, commuting opposite faces) are proved about `From`.

The source's `rotateF` is not a quarter turn (see "## Findings"). Every dispatch therefore takes a `Version`: `AsWritten` turns F with `rotateF` as the source writes it, and `Corrected` with the corrected turn. `applyMove3D` is modelled as written; the laws that fail for the as-written F are stated for `Corrected`, and for `AsWritten` on the other five faces.

## Model

| member | source | states |
|---|---|---|
| Lehmer.ComputeFactorial | src/Solver.java:563-567 | factorial(n) is n! for n >= 0, and 1 for a negative n (the loop does not run) |
| Lehmer.CountSmallerAfter | src/Solver.java:538-541 | the inner loop counts the entries after position i that are smaller than perm[i] |
| Lehmer.GetLehmerCode | src/Solver.java:535-545 | getLehmerCode(perm, n) is the Lehmer code Code(perm[..n]) of the first n entries |
| Lehmer.HornerInvStep | src/Solver.java:542 | one step `code = code * (n - i) + smaller` keeps code equal to the code of the prefix read so far |
| Lehmer.DecodeLehmer | src/Solver.java:547-561 | for n = 0, or 0 <= code < n!, the result is Decode(code, [0..n)); any other code (Java would throw from numbers.get) is reported as failure, in both directions |
| Lehmer.DecodeInvStep | src/Solver.java:552-559 | one pass of the decode loop (digit = code / fact, code %= fact, take and remove numbers[digit]) keeps the decoded prefix consistent with Decode |
| Lehmer.DecodeInvBad | src/Solver.java:554-557 | a digit out of the list's range can only happen for a code outside [0, n!) |
| Lehmer.CodeBound | src/Solver.java:535-545 | the code of any sequence of length n is below n! |
| Lehmer.IdentityCodeZero | src/Solver.java:535-545 | the identity permutation has code 0, the coordinate every search starts from |
| Lehmer.DecodeEncode | src/Solver.java:535-561 | decoding the code of an arrangement of a sorted list gives the arrangement back |
| Lehmer.EncodeDecode | src/Solver.java:535-561 | encoding the decoding of a code below n! gives the code back |
| Lehmer.DecodeArrangement | src/Solver.java:547-561 | the decoding of a code is an arrangement (same multiset) of the available numbers |
| Lehmer.PermutationCodes | src/Solver.java:535-561 | for every permutation p of 0..n-1: code < n! and decodeLehmer(getLehmerCode(p)) == p |
| Lehmer.CodePermutations | src/Solver.java:535-561 | for every code < n!: the decoded sequence is a permutation of 0..n-1 and re-encodes to the code |
| Lehmer.CountLessPermutation | src/Solver.java:538-541 | the count of smaller entries depends only on the multiset of the entries |
| Coordinates.PackBound | src/Solver.java:243-246 | packing k digits base b gives a value below b^k |
| Coordinates.DigitsPack | src/Solver.java:229-232 | unpacking a packed digit sequence gives the digits back |
| Coordinates.PackDigits | src/Solver.java:243-246 | packing the unpacked digits of x < b^k gives x back |
| Coordinates.CompletionUnique | src/Solver.java:233 | the implied last orientation is the one and only digit that makes the sum 0 mod b |
| Coordinates.CompletionOfSum | src/Solver.java:233 | `(3 - sum % 3) % 3` is that implied digit |
| Coordinates.XorCompletion | src/Solver.java:280-281 | the XOR of the eleven edge flips is the implied twelfth flip (parity 0) |
| Coordinates.EdgeOrientationsParity | src/Solver.java:274-281 | decoding edge orientations by XOR is the same as completing them mod 2 |
| Coordinates.OrientationsValid | src/Solver.java:227-233 | a decoded orientation vector is in range and sums to 0 mod b |
| Coordinates.OrientationsPack | src/Solver.java:227-246 | every valid orientation vector is the decoding of its packed first n-1 digits |
| Coordinates.PackOrientations | src/Solver.java:227-246 | packing the first n-1 digits of a decoded state gives the state back |
| Coordinates.SumTwisted | src/Solver.java:237-240 | adding the twists mod b adds their sums mod b |
| Coordinates.OrientNextCommutes | src/Solver.java:225-248 | with a bijective slot row and twists summing to 0 mod b, the next state decodes to the twisted orientations moved to their slots |
| Coordinates.OrientNextIdentity | src/Solver.java:225-248 | the identity row with no twist leaves every state unchanged |
| Coordinates.UnpackDigits | src/Solver.java:228-232 | the digit loop writes the k base-b digits of the state, most significant first, and nothing else |
| Coordinates.MoveTwisted | src/Solver.java:236-240 | newCO[target] = (co[c] + twist) % b for each piece, as Scatter(Twisted(...)) |
| Coordinates.PackPrefix | src/Solver.java:243-246 | the Horner loop packs the first k digits |
| Coordinates.ApplyCornerOrientMove | src/Solver.java:225-248 | applyCornerOrientMove computes CornerOrientNext, a coordinate below 3^7 |
| Coordinates.ApplyEdgeOrientMove | src/Solver.java:273-294 | applyEdgeOrientMove computes EdgeOrientNext, a coordinate below 2^11 |
| Coordinates.MovePieces | src/Solver.java:323-326 | newCP[dest] = cp[c] for each piece, as Scatter |
| Coordinates.ApplyPermMove | src/Solver.java:319-329 | decode, scatter through the row, re-encode: the result is PermNext(row, state) |
| Coordinates.ApplyCornerPermMove | src/Solver.java:319-329 | applyCornerPermMove is PermNext on the corner row of the move |
| Coordinates.ApplyEdgePermMove | src/Solver.java:354-364 | applyEdgePermMove is PermNext on the U/D-edge row of the move |
| Coordinates.PermNextDecodes | src/Solver.java:319-329 | with a bijective row the next code is below n! and decodes to the decoded permutation scattered through the row |
| Coordinates.PermNextInjective | src/Solver.java:319-329 | with a bijective row, distinct codes go to distinct codes |
| Coordinates.PermNextIdentity | src/Solver.java:319-329 | the identity row leaves every code unchanged |
| Coordinates.PermNextBound | src/Solver.java:319-329 | for any row of in-range slots the next code stays below n! |
| ScatterRows.ScatterAt | src/Solver.java:323-326 | through a bijective row, value c lands in slot row[c] |
| ScatterRows.ScatterMultiset | src/Solver.java:323-326 | scattering through a bijective row rearranges the values |
| ScatterRows.ScatterInjective | src/Solver.java:323-326 | scattering through a bijective row is injective |
| ScatterRows.ScatterIdentity | src/Solver.java:323-326 | scattering through the identity row changes nothing |
| MoveTables.MoveRowInverse | src/Solver.java:107-116 | for a permutation cp, the recorded row ("slot t with cp[t] == c") is a bijection and the inverse of cp |
| MoveTables.RecordPieces | src/Solver.java:107-116 | the search loop records row `move` (slot and orientation of each piece) and leaves the other rows as they were |
| MoveTables.InitializeMoveTables | src/Solver.java:97-129 | all 18 rows of the four tables hold the recorded slots and orientations of each moved solved cube |
| MoveTables.RecordedSlotsInRange | src/Solver.java:107-127 | every recorded slot lies in 0..7 for corners and 0..11 for edges |
| MoveTables.Cycle4Rotates | src/Solver.java:395-401 | apply4Cycle moves entry cyc[k+1] to cyc[k] (cyclically) and leaves every other entry as it was |
| MoveTables.Cycle4Bijective | src/Solver.java:395-401 | on four distinct slots, apply4Cycle turns a permutation row into a permutation row |
| MoveTables.Apply4Cycle | src/Solver.java:395-401 | the method changes row `move` of the table to its 4-cycle and no other row |
| MoveTables.BuildUdEdgeMoveTableAsWritten | src/Solver.java:368-393 | the table as written: identity rows with the six listed 4-cycles applied to rows 0..5 |
| MoveTables.UdRowAsWrittenValues | src/Solver.java:379-386 | the six rows as written, value by value |
| MoveTables.UdRowsAsWrittenBijective | src/Solver.java:368-393 | every row of the table as written is a permutation of 0..7, and rows 6..17 are the identity |
| MoveTables.HalfTurnRowsAsWritten | src/Solver.java:379-386 | as written, the U2 and D2 rows equal the U and D rows and are not their squares |
| MoveTables.BuildUdEdgeMoveTable | src/Solver.java:368-393 | the corrected table: the U2 and D2 rows get their 4-cycle twice |
| MoveTables.UdRowValues | src/Solver.java:368-393 | the corrected rows value by value; rows 6..17 are the identity |
| MoveTables.UdRowsBijective | src/Solver.java:368-393 | every row is a permutation of 0..7 and rows 6..17 are the identity |
| MoveTables.UdHalfTurns | src/Solver.java:379-386 | corrected, U2 = U;U and D2 = D;D, each an involution other than the identity |
| MoveTables.UdInverses | src/Solver.java:379-386 | the U and U' rows are inverse to each other, as are D and D' |
| MoveTables.UdRowsLayers | src/Solver.java:378-386 | U moves only the four U-layer edges and D only the four D-layer edges |
| Pruning.NextMarkUnseen | src/Solver.java:212-217 | `(byte)((b & 0xFF) + 1)` is the marker 99 exactly when b is 98 |
| Pruning.Step | src/Solver.java:214-216 | the move function of each table is the transition of its coordinate |
| Pruning.Expand | src/Solver.java:214-220 | one dequeued state: every unreached successor is marked with the distance plus one and queued, in move order; other entries stay as they were |
| Pruning.VisitMarks | src/Solver.java:214-220 | after the move loop every successor is marked |
| Pruning.VisitQueuesNew | src/Solver.java:214-220 | exactly the newly marked states are queued, so each entry leaves the marker at most once |
| Pruning.SearchStep | src/Solver.java:210-221 | one pass of the queue loop keeps the breadth-first invariant and decreases the termination measure |
| Pruning.GenerateTable | src/Solver.java:202-223 | the table has the space's size (3^7, 2^11, 8!, 8!), entry 0 is 0, every entry with a distance other than 98 has all successors marked, and without a 98 entry every distance is exact |
| Pruning.WalkBound | src/Solver.java:202-223 | in an exact table, every state reachable in k moves is labelled with at most k |
| Pruning.ShortestWalk | src/Solver.java:202-223 | in an exact table, a state labelled d is reached from 0 by a walk of d moves |
| Moves.NameIndexOf | src/Solver.java:72-79 | each move name is found at its own index |
| Moves.NameIndexFound | src/Solver.java:516-521 | a name is found exactly when it is listed |
| Moves.GetMoveIndex | src/Solver.java:516-521 | getMoveIndex returns the index of the name, and -1 exactly for a name not listed |
| Moves.RedundantSameLetter | src/Solver.java:523-530 | for move indices and -1, isRedundant holds iff both are moves whose names start with the same face letter |
| Moves.RedundantSymmetric | src/Solver.java:523-530 | isRedundant is symmetric and holds between a move and itself |
| Moves.ExpansionOfName | src/Solver.java:778-797 | each listed move becomes its face letter repeated 1, 3 or 2 times |
| Moves.ExpansionUnknown | src/Solver.java:778-797 | a token that is not a move name is dropped |
| Moves.ConvertToAllowedMoves | src/Solver.java:775-800 | the loop concatenates the expansions of the tokens in order |
| Moves.ExpandedQuarterTurns | src/Solver.java:775-800 | the converted solution holds only single-letter quarter turns |
| CubeState.CopyCube | src/CubeState.java:5-12 | a fresh 6x3x3 array with the same sticker in every cell |
| CubeState.GridEqual | src/CubeState.java:14-21 | two cubes have the same sticker walk exactly when they agree cell by cell |
| CubeState.WrapMod | src/CubeState.java:19 | Java long overflow is the remainder modulo 2^64 read from -2^63 |
| CubeState.HashStep | src/CubeState.java:19 | wrapping after each step equals wrapping once at the end |
| CubeState.HashCube | src/CubeState.java:14-21 | hashCube is the wrapped base-31 polynomial of the 54 stickers, face by face, row by row |
| CubeState.SameStickersSameHash | src/CubeState.java:14-21 | two cubes that agree cell by cell have the same hash |
| CubeState.CopyKeepsHash | src/CubeState.java:5-21 | a copy hashes as its original |
| Rotation.RotateFaceCW | src/Solver.java:655-662 | the face's sticker at [r][c] moves to [c][2-r]; the other faces are unchanged |
| Rotation.FaceCWPeriod | src/Solver.java:655-662 | four face turns are the identity |
| Rotation.WriteLine | src/Solver.java:690-693 | one strip copy loop writes the three letters, in order or backwards, and changes nothing else |
| Rotation.ShiftStrips | src/Solver.java:667-670 | the first three strip copies of a turn |
| Rotation.CycleStrips | src/Solver.java:667-671 | saving strip 1 and copying round the four strips moves each strip sticker as StripSource says |
| Rotation.TurnInPlace | src/Solver.java:666-671 | face turn then strip cycle, on the copy |
| Rotation.TurnWith | src/Solver.java:665-672 | the copy, turned: each sticker comes from TurnSource |
| Rotation.RotateU | src/Solver.java:664-673 | rotateU moves every sticker as From(U, ·) |
| Rotation.RotateD | src/Solver.java:675-684 | rotateD moves every sticker as From(D, ·) |
| Rotation.RotateL | src/Solver.java:686-695 | rotateL moves every sticker as From(L, ·) |
| Rotation.RotateR | src/Solver.java:697-706 | rotateR moves every sticker as From(R, ·) |
| Rotation.RotateF | src/Solver.java:708-717 | the corrected rotateF moves every sticker as From(F, ·) |
| Rotation.RotateFAsWritten | src/Solver.java:708-717 | rotateF as written moves every sticker as FromFAsWritten |
| Rotation.RotateB | src/Solver.java:719-728 | rotateB moves every sticker as From(B, ·) |
| Rotation.UPeriod | src/Solver.java:664-673 | four U turns are the identity |
| Rotation.DPeriod | src/Solver.java:675-684 | four D turns are the identity |
| Rotation.LPeriod | src/Solver.java:686-695 | four L turns are the identity |
| Rotation.RPeriod | src/Solver.java:697-706 | four R turns are the identity |
| Rotation.FPeriod | src/Solver.java:708-717 | four corrected F turns are the identity |
| Rotation.BPeriod | src/Solver.java:719-728 | four B turns are the identity |
| Rotation.TurnPeriod | src/Solver.java:664-728 | with F corrected, four quarter turns of any face are the identity |
| Rotation.AsWrittenPeriod | src/Solver.java:664-728 | as written, four quarter turns of every face but F are the identity, and four F turns bring U[2][2]'s sticker to U[2][0] |
| Rotation.FAsWrittenNotPeriodic | src/Solver.java:714 | four turns of rotateF as written swap U[2][0] and U[2][2] |
| Rotation.CentresFixed | src/Solver.java:664-728 | no turn moves a centre sticker |
| Rotation.UDCommute | src/Solver.java:664-684 | U and D turns commute |
| Rotation.FBCommute | src/Solver.java:708-728 | F and B turns commute |
| Rotation.LRCommute | src/Solver.java:686-706 | L and R turns commute |
| Rotation.UTouches | src/Solver.java:664-673 | rotateU changes only face 0 and row 0 of faces 2..5; face 1 and the other rows stay |
| Rotation.PrimeUndoes | src/Solver.java:730-770 | with F corrected, a prime (three turns) undoes the turn, on either side |
| Rotation.FromInjective | src/Solver.java:664-728 | a turn is a bijection on the stickers |
| Rotation.Rotate | src/Solver.java:664-728 | the quarter turn of any face by its method; as written, F is rotateF as the source writes it |
| Rotation.RotatePrime | src/Solver.java:730-770 | rotateXPrime is three quarter turns; as written, rotateFPrime is three as-written rotateF calls |
| Rotation.RotateTwice | src/Solver.java:730-770 | rotateXTwice is two quarter turns; as written, rotateFTwice is two as-written rotateF calls |
| Rotation.ApplyMoveWith | src/Solver.java:626-648 | the named move turns its face 1, 3 or 2 times in the given version, and any other name gives a copy |
| Rotation.ApplyMove3D | src/Solver.java:626-648 | applyMove3D as written: the named face is turned 1, 3 or 2 times, F with rotateF as written, and any other name gives a copy |
| Rotation.MoveInverses | src/Solver.java:626-648 | X' undoes X on either side and X2 undoes itself, for every face with F corrected and for every face but F as written |
| Rotation.MoveInversesAsWrittenF | src/Solver.java:633-634 | as written, F followed by F' does not restore the cube: U[2][2]'s sticker ends up at U[2][0] |
| Rotation.SeqSourceConcat | src/Solver.java:626-648 | applying two move lists one after the other is applying their concatenation |
| Rotation.ExpansionSource | src/Solver.java:775-800 | a token and its expansion into quarter turns move the stickers alike |
| Rotation.ConvertSameEffect | src/Solver.java:775-800 | the converted solution turns the cube exactly as the original solution |
| Search.RunConcat | src/Solver.java:435-439 | running two paths one after the other is running their concatenation |
| Search.SearchFrom | src/Solver.java:479-514 | f > bound gives null; h == 0 within the bound gives the path itself; any node found extends the path with a solution recorded in visited; the node and the visited set left for the caller's next move are exactly those of the functional model SearchResult, so every hash recorded anywhere in a failed subtree stays recorded, and in particular every child hash on another face than the last move |
| Search.TryMove | src/Solver.java:489-507 | a move on the last move's face is skipped; so is a state whose hash was seen; otherwise the hash is added and stays in visited whether or not the subtree succeeds, and any node found answers from here; the node and the visited set are exactly those of TryResult, one move of SearchResult's loop |
| Search.SearchKeepsVisited | src/Solver.java:465-503 | the one visited set shared by an iteration only grows: search leaves every hash it was given |
| Search.MovesKeepVisited | src/Solver.java:489-511 | the move loop keeps every hash it was given, and when no move finds a node the hash of every tried state on another face than the last move's is recorded |
| Search.TryKeepsVisited | src/Solver.java:491-503 | one move keeps every hash it was given and records the hash of its next state unless the move is on the last move's face |
| Search.LastMoveOf | src/Solver.java:491-494 | the last move read back by name is the last move index of the path |
| Search.FoundStep | src/Solver.java:503-507 | a solution found one move deeper is a solution from here |
| Search.AnswerStep | src/Solver.java:503-507 | a node answering one move deeper answers here with the move prepended |
| Search.IdaSearch | src/Solver.java:458-477 | the result is IdaFrom from the start's heuristic: the path of the first bound up to 12/18 at which search succeeds, null when all fail; no path when the heuristic is beyond the phase's depth; the empty path when it is 0; any path found is a solution within some tried depth, no longer than it |
| Search.IdaFromNone | src/Solver.java:463-476 | idaSearch's bound loop yields null exactly when search from the start, with a fresh visited set, fails at every bound from the first to 12/18 |
| Search.IdaFromFirst | src/Solver.java:463-476 | a path the bound loop yields is the one search returns at some bound, every earlier bound having failed |
| Search.SolvesListed | src/Solver.java:487 | every move of a solution is listed for the phase |
| Search.SolvesNoRepeat | src/Solver.java:491-494 | no two consecutive moves of a solution turn the same face |
| Search.SolvesWithin | src/Solver.java:481-484 | every state along a solution keeps g + h within the bound, so its length is within the bound |
| Search.SolvesEnds | src/Solver.java:485 | a solution ends in a state with heuristic 0 |
| Search.SolvesIffFacts | src/Solver.java:479-514 | the recursive notion of a solution is equivalent to its move-by-move facts |
| Search.RecordedDistinct | src/Solver.java:500-503 | the hashes along a found path were all new when recorded, are in the final visited set, and are pairwise distinct |
| Search.JoinPhases | src/Solver.java:435-450 | a phase-1 solution followed by a phase-2 solution from where it ends is a two-phase answer: at most 12 then at most 18 moves, each part reaching its heuristic 0 with its phase's moves and no face turned twice in a row |
| Search.SolveTwoPhase | src/Solver.java:418-453 | "No solution found" exactly when phase 1's idaSearch fails or phase 2's idaSearch from where phase 1 ends fails; otherwise the answer is the two paths joined; no answer when the start's phase-1 heuristic is beyond 12; the empty answer when both heuristics are 0 at the start; any answer found is a two-phase answer |

## Left out

- File input and output, the `main` entry point and all console printing are not modelled: they are plumbing.
- The wall clock and `TIME_LIMIT` are not modelled. Neither is the timeout return after each child search or after each depth. The model explores as if time never ran out.
- `CompactCube` is not part of this model.
  - Its move application, its two heuristics and its hash appear in `Search` as the functions of a `Puzzle`.
  - The moved cubies that `initializeMoveTables` reads appear as the parameter `moved` of `MoveTables.InitializeMoveTables`.
  - The move tables the transitions read are a `Tables` value.
- Paths are sequences of move indices, not space-separated strings. The search still reads the last move back through `getMoveIndex` of its name. The string split, join and trim of `solveTwoPhase` and `convertToAllowedMoves` are left out; `ConvertToAllowedMoves` takes the solution already split into tokens.
- `Search.SearchFrom`, `Search.TryMove`: the `visited` hash set is a set value threaded in and out of each call, rather than one shared mutable object.
- `Search.IdaSearch` and `Search.SearchFrom` do not claim completeness. A path is not promised whenever one exists, because the shared visited set can prune a state that a later branch would need.
- `Search.IdaSearch` returns the depth at which the path was found only as a ghost value.
- `Search.SolveTwoPhase`: the split point between the two phases is a ghost value.
- Java's `HashMap`, `LinkedList` and `HashSet` become sequences and sets.
- `Pruning.GenerateTable`: exactness of the distances is proved under the hypothesis that no entry is 98. A state at distance 98 would be stored as the byte 99 and look unreached. No table reaches such a depth, but the model does not prove that. Completeness holds without the hypothesis.
- The successor graph of each coordinate space is a ghost parameter of `Pruning.GenerateTable`. The method itself computes each successor with the coordinate's transition.
- The 6x3x3 cube is a Dafny `array3<char>`, not a jagged array of rows. The row aliasing that `clone()` avoids in `rotateU` and `rotateD` therefore cannot arise.
- The strip copies of the six turns share one generic routine (`Rotation.CycleStrips`), parameterised by the four strips and their directions. In the source each turn spells its copies out.
- `Rotation.ApplyMove3D`: the `switch` on the move name is modelled as a lookup of the name's index.
- Java `char` is a Dafny `char`. The hash reads it as its code.
- `Lehmer.GetLehmerCode`, `Lehmer.CountSmallerAfter`: these require `n <= perm.length`. For a larger n the source throws `ArrayIndexOutOfBoundsException`; that failure path is not modelled, since every caller passes an array of length 8 with n = 8.
- `Lehmer.GetLehmerCode` and `Lehmer.ComputeFactorial` do not model Java `int` overflow. For n >= 13 the source's factorial and code overflow; the solver only uses n = 8.
- `Coordinates.ApplyCornerPermMove`, `Coordinates.ApplyEdgePermMove`: these require a state below 8!. The source would throw from `decodeLehmer` otherwise. `Lehmer.DecodeLehmer` models that failure path on its own.
- `PHASE1_MOVES` is modelled as written: indices 14..17, which name L2, R, R' and R2. The comment in the source names different moves.

## Findings

| source | as written | input that shows it | evidently intended | confidence | as-written member | corrected member |
|---|---|---|---|---|---|---|
| src/Solver.java:714 | rotateF copies R's column 0 into D's row 0 in order. The strip cycle then has one reversal, so four F turns are not the identity, and F' does not undo F. | any cube whose stickers U[2][0] and U[2][2] differ: after F F F F they are swapped | copy R's column 0 backwards into D's row 0, giving a quarter turn of period four | not executed; likely | Rotation.RotateFAsWritten, Rotation.FAsWrittenNotPeriodic, Rotation.MoveInversesAsWrittenF | Rotation.RotateF, Rotation.FPeriod, Rotation.MoveInverses |
| src/Solver.java:379-386 | The U2 and D2 rows of the U/D-edge table are single 4-cycles, so they equal the U and D rows. | move 2 (U2) on the solved U/D-edge permutation gives the same code as move 0 (U) | a half turn: the 4-cycle applied twice (two swaps) | not executed; likely | MoveTables.BuildUdEdgeMoveTableAsWritten, MoveTables.HalfTurnRowsAsWritten | MoveTables.BuildUdEdgeMoveTable, MoveTables.UdHalfTurns |
