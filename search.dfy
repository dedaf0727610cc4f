// The IDA* search of the two-phase solver over an abstract puzzle state.
// The compact cube is not part of this model: its move application, its two
// phase heuristics and its hash are given as functions, and a path is the
// sequence of move indices the search appended, in order.

module Search {
  import opened Wrappers
  import opened Moves
  import Pruning

  /** What the search needs of the compact cube. */
  datatype Puzzle<!S> = Puzzle(apply: (S, int) -> S, phase1H: S -> nat, phase2H: S -> nat, hash: S -> int)

  /** A search result: the path and its length g. */
  datatype Node = Node(path: seq<int>, g: int)

  function Heuristic<S>(p: Puzzle<S>, phase1: bool, s: S): nat
  {
    if phase1 then p.phase1H(s) else p.phase2H(s)
  }

  /** The move indices a phase may use. */
  function MoveList(phase1: bool): (ms: seq<int>)
    ensures forall i :: 0 <= i < |ms| ==> 0 <= ms[i] < 18
  {
    if phase1 then Pruning.PHASE1_MOVES else Pruning.PHASE2_MOVES
  }

  /** The deepest bound each phase tries. */
  function MaxDepth(phase1: bool): int
  {
    if phase1 then 12 else 18
  }

  /** The state after the moves, first to last. */
  function Run<S>(p: Puzzle<S>, s: S, ms: seq<int>): S
  {
    if ms == [] then s else Run(p, p.apply(s, ms[0]), ms[1..])
  }

  lemma {:induction false} RunConcat<S>(p: Puzzle<S>, s: S, a: seq<int>, b: seq<int>)
    ensures Run(p, s, a + b) == Run(p, Run(p, s, a), b)
  {
    if a != [] {
      assert (a + b)[1..] == a[1..] + b;
      RunConcat(p, p.apply(s, a[0]), a[1..], b);
    } else {
      assert a + b == b;
    }
  }

  /** The last move of a path; -1 (no move) for the empty path. */
  function LastMove(path: seq<int>): int
  {
    if path == [] then -1 else path[|path| - 1]
  }

  /** ext is what the search may append from state s at depth g, the move
      before being `last` (-1 for none): every state on the way is within
      the bound, each move is listed for the phase and turns another face
      than the move before, and the last state has heuristic 0. */
  predicate Solves<S>(p: Puzzle<S>, phase1: bool, s: S, g: int, bound: int, last: int, ext: seq<int>)
    decreases |ext|
  {
    g + Heuristic(p, phase1, s) <= bound &&
    if ext == [] then Heuristic(p, phase1, s) == 0
    else
      ext[0] in MoveList(phase1) && !IsRedundant(last, ext[0]) &&
      Solves(p, phase1, p.apply(s, ext[0]), g + 1, bound, ext[0], ext[1..])
  }

  /** Every state an extension steps into has a hash that was not seen
      before it (neither in `before` nor earlier on the extension) and is
      recorded in `after`. */
  predicate Recorded<S>(p: Puzzle<S>, s: S, ext: seq<int>, before: set<int>, after: set<int>)
    decreases |ext|
  {
    ext != [] ==>
      var next := p.apply(s, ext[0]);
      p.hash(next) !in before && p.hash(next) in after &&
      Recorded(p, next, ext[1..], before + {p.hash(next)}, after)
  }

  /** Fewer hashes seen before keeps an extension recorded. */
  lemma {:induction false} RecordedShrink<S>(p: Puzzle<S>, s: S, ext: seq<int>, small: set<int>, before: set<int>, after: set<int>)
    requires small <= before && Recorded(p, s, ext, before, after)
    ensures Recorded(p, s, ext, small, after)
    decreases |ext|
  {
    if ext != [] {
      var next := p.apply(s, ext[0]);
      RecordedShrink(p, next, ext[1..], small + {p.hash(next)}, before + {p.hash(next)}, after);
    }
  }

  /** n answers the search from s at depth g below path: its path is path
      extended by a solution, its g counts the extension, and the states the
      extension steps into are recorded. */
  predicate Answers<S>(p: Puzzle<S>, phase1: bool, s: S, g: int, bound: int, path: seq<int>,
                       before: set<int>, after: set<int>, n: Node)
  {
    |path| <= |n.path| && n.path == path + n.path[|path|..] && n.g == g + |n.path| - |path| &&
    Solves(p, phase1, s, g, bound, LastMove(path), n.path[|path|..]) &&
    Recorded(p, s, n.path[|path|..], before, after)
  }

  lemma AnswersShrink<S>(p: Puzzle<S>, phase1: bool, s: S, g: int, bound: int, path: seq<int>,
                         small: set<int>, before: set<int>, after: set<int>, n: Node)
    requires small <= before && Answers(p, phase1, s, g, bound, path, before, after, n)
    ensures Answers(p, phase1, s, g, bound, path, small, after, n)
  {
    RecordedShrink(p, s, n.path[|path|..], small, before, after);
  }

  /** A node that answers one move deeper answers here. */
  lemma AnswerStep<S>(p: Puzzle<S>, phase1: bool, s: S, g: int, bound: int, path: seq<int>, move: int, n: Node,
                      visited: set<int>, mid: set<int>, after: set<int>)
    requires move in MoveList(phase1) && !IsRedundant(LastMove(path), move)
    requires g + Heuristic(p, phase1, s) <= bound
    requires p.hash(p.apply(s, move)) !in visited && visited + {p.hash(p.apply(s, move))} <= mid <= after
    requires Answers(p, phase1, p.apply(s, move), g + 1, bound, path + [move], mid, after, n)
    ensures Answers(p, phase1, s, g, bound, path, visited, after, n)
  {
    var rest := n.path[|path| + 1..];
    assert n.path[|path|..] == [move] + rest by {
      assert n.path == path + [move] + rest;
    }
    assert LastMove(path + [move]) == move;
    FoundStep(p, phase1, s, g, bound, LastMove(path), move, rest, visited, mid, after);
  }

  // ---------------------------------------------------------------------
  // search as a function of its inputs: the node it returns and the visited
  // set it leaves behind, which the next move of the caller's loop sees

  /** The outcome of search from `state` at depth g: null beyond the bound,
      the path itself at heuristic 0, otherwise the loop over the phase's
      moves from the first one. */
  ghost function SearchResult<S>(p: Puzzle<S>, state: S, g: int, bound: int, path: seq<int>, phase1: bool,
                                 visited: set<int>): (Option<Node>, set<int>)
    decreases bound - g + 1, 2
  {
    var h := Heuristic(p, phase1, state);
    if g + h > bound then (None, visited)
    else if h == 0 then (Some(Node(path, g)), visited)
    else MovesResult(p, state, g, bound, path, phase1, 0, visited)
  }

  /** The loop of search from the k-th move of the phase: the first move
      whose subtree returns a node decides, and each move sees the visited
      set the moves before it left. */
  ghost function MovesResult<S>(p: Puzzle<S>, state: S, g: int, bound: int, path: seq<int>, phase1: bool,
                                k: nat, visited: set<int>): (Option<Node>, set<int>)
    requires k <= |MoveList(phase1)| && g + Heuristic(p, phase1, state) <= bound
    decreases bound - g + 1, 1, |MoveList(phase1)| - k
  {
    if k == |MoveList(phase1)| then (None, visited)
    else
      var r := TryResult(p, state, g, bound, path, phase1, MoveList(phase1)[k], visited);
      if r.0.Some? then r else MovesResult(p, state, g, bound, path, phase1, k + 1, r.1)
  }

  /** One move of the loop: skipped on the last move's face or onto a seen
      hash; otherwise the hash is recorded and search goes one move deeper. */
  ghost function TryResult<S>(p: Puzzle<S>, state: S, g: int, bound: int, path: seq<int>, phase1: bool,
                              move: int, visited: set<int>): (Option<Node>, set<int>)
    requires g + Heuristic(p, phase1, state) <= bound
    decreases bound - g + 1, 0
  {
    if path != [] && IsRedundant(LastMove(path), move) then (None, visited)
    else
      var next := p.apply(state, move);
      if p.hash(next) in visited then (None, visited)
      else SearchResult(p, next, g + 1, bound, path + [move], phase1, visited + {p.hash(next)})
  }

  /** One pass of the loop: the move's outcome decides if it found a node,
      and the loop goes on from the next move with its visited set if not. */
  lemma MovesStep<S>(p: Puzzle<S>, state: S, g: int, bound: int, path: seq<int>, phase1: bool,
                     k: nat, visited: set<int>, r: Option<Node>, after: set<int>)
    requires k < |MoveList(phase1)| && g + Heuristic(p, phase1, state) <= bound
    requires (r, after) == TryResult(p, state, g, bound, path, phase1, MoveList(phase1)[k], visited)
    ensures r.Some? ==> MovesResult(p, state, g, bound, path, phase1, k, visited) == (r, after)
    ensures r.None? ==>
      MovesResult(p, state, g, bound, path, phase1, k, visited) == MovesResult(p, state, g, bound, path, phase1, k + 1, after)
  {
  }

  /** search never forgets a hash: the visited set it leaves holds the one
      it was given. */
  lemma {:induction false} SearchKeepsVisited<S>(p: Puzzle<S>, state: S, g: int, bound: int, path: seq<int>, phase1: bool,
                                                 visited: set<int>)
    ensures visited <= SearchResult(p, state, g, bound, path, phase1, visited).1
    decreases bound - g + 1, 2
  {
    if g + Heuristic(p, phase1, state) <= bound && Heuristic(p, phase1, state) != 0 {
      MovesKeepVisited(p, state, g, bound, path, phase1, 0, visited);
    }
  }

  /** The loop from the k-th move keeps what it was given, and when no move
      finds a node, the hash of every move it tried on another face than
      the last move's is recorded. */
  lemma {:induction false} MovesKeepVisited<S>(p: Puzzle<S>, state: S, g: int, bound: int, path: seq<int>, phase1: bool,
                                               k: nat, visited: set<int>)
    requires k <= |MoveList(phase1)| && g + Heuristic(p, phase1, state) <= bound
    ensures var r := MovesResult(p, state, g, bound, path, phase1, k, visited);
      visited <= r.1 &&
      (r.0 == None ==>
         forall j :: k <= j < |MoveList(phase1)| && !IsRedundant(LastMove(path), MoveList(phase1)[j]) ==>
           p.hash(p.apply(state, MoveList(phase1)[j])) in r.1)
    decreases bound - g + 1, 1, |MoveList(phase1)| - k
  {
    if k < |MoveList(phase1)| {
      var t := TryResult(p, state, g, bound, path, phase1, MoveList(phase1)[k], visited);
      TryKeepsVisited(p, state, g, bound, path, phase1, MoveList(phase1)[k], visited);
      if t.0.None? {
        MovesKeepVisited(p, state, g, bound, path, phase1, k + 1, t.1);
      }
    }
  }

  /** One move keeps what it was given, and records the hash of the state it
      steps into unless the move is on the last move's face. */
  lemma {:induction false} TryKeepsVisited<S>(p: Puzzle<S>, state: S, g: int, bound: int, path: seq<int>, phase1: bool,
                                              move: int, visited: set<int>)
    requires g + Heuristic(p, phase1, state) <= bound
    ensures var r := TryResult(p, state, g, bound, path, phase1, move, visited);
      visited <= r.1 &&
      (!IsRedundant(LastMove(path), move) ==> p.hash(p.apply(state, move)) in r.1)
    decreases bound - g + 1, 0
  {
    var next := p.apply(state, move);
    if !(path != [] && IsRedundant(LastMove(path), move)) && p.hash(next) !in visited {
      SearchKeepsVisited(p, next, g + 1, bound, path + [move], phase1, visited + {p.hash(next)});
    }
  }

  /** search: depth-first below the bound. Its node and the visited set it
      leaves are those of SearchResult; every state stepped into is skipped
      if its hash was seen before in this iteration, and recorded otherwise,
      and a node returned is a solution from here. The last move is found
      again from the path, and a move on the same face is never tried next. */
  method SearchFrom<S>(p: Puzzle<S>, state: S, g: int, bound: int, path: seq<int>, phase1: bool, visited: set<int>)
    returns (result: Option<Node>, visitedOut: set<int>)
    requires forall i :: 0 <= i < |path| ==> 0 <= path[i] < 18
    ensures visited <= visitedOut
    ensures g + Heuristic(p, phase1, state) > bound ==> result == None && visitedOut == visited
    ensures g + Heuristic(p, phase1, state) <= bound && Heuristic(p, phase1, state) == 0 ==>
      result == Some(Node(path, g)) && visitedOut == visited
    ensures result.Some? ==> Answers(p, phase1, state, g, bound, path, visited, visitedOut, result.value)
    ensures g + Heuristic(p, phase1, state) <= bound && result == None ==>
      forall m :: m in MoveList(phase1) && !IsRedundant(LastMove(path), m) ==> p.hash(p.apply(state, m)) in visitedOut
    ensures (result, visitedOut) == SearchResult(p, state, g, bound, path, phase1, visited)
    decreases bound - g + 1, 1
  {
    var h := Heuristic(p, phase1, state);
    var f := g + h;
    if f > bound {
      return None, visited;
    }
    if h == 0 {
      assert path[|path|..] == [];
      return Some(Node(path, g)), visited;
    }
    var moves := MoveList(phase1);
    visitedOut := visited;
    ghost var outcome := MovesResult(p, state, g, bound, path, phase1, 0, visited);
    assert outcome == SearchResult(p, state, g, bound, path, phase1, visited);
    for k := 0 to |moves|
      invariant visited <= visitedOut
      invariant MovesResult(p, state, g, bound, path, phase1, k, visitedOut) == outcome
    {
      ghost var before := visitedOut;
      var r;
      r, visitedOut := TryMove(p, state, g, bound, path, phase1, moves[k], visitedOut);
      MovesStep(p, state, g, bound, path, phase1, k, before, r, visitedOut);
      if r.Some? {
        AnswersShrink(p, phase1, state, g, bound, path, visited, before, visitedOut, r.value);
        return r, visitedOut;
      }
    }
    MovesKeepVisited(p, state, g, bound, path, phase1, 0, visited);
    return None, visitedOut;
  }

  /** One pass of search's loop: a move on the face of the last move is
      skipped, so is a next state whose hash was seen; otherwise the hash
      is recorded and the search goes one move deeper. */
  method TryMove<S>(p: Puzzle<S>, state: S, g: int, bound: int, path: seq<int>, phase1: bool, move: int, visited: set<int>)
    returns (result: Option<Node>, visitedOut: set<int>)
    requires forall i :: 0 <= i < |path| ==> 0 <= path[i] < 18
    requires move in MoveList(phase1) && g + Heuristic(p, phase1, state) <= bound
    ensures visited <= visitedOut
    ensures IsRedundant(LastMove(path), move) ==> result == None && visitedOut == visited
    ensures p.hash(p.apply(state, move)) in visited ==> result == None && visitedOut == visited
    ensures result.Some? ==> Answers(p, phase1, state, g, bound, path, visited, visitedOut, result.value)
    ensures !IsRedundant(LastMove(path), move) && p.hash(p.apply(state, move)) !in visited ==>
      visited + {p.hash(p.apply(state, move))} <= visitedOut
    ensures (result, visitedOut) == TryResult(p, state, g, bound, path, phase1, move, visited)
    decreases bound - g + 1, 0
  {
    if path != [] {
      var lastMove := LastMoveOf(path);
      if IsRedundant(lastMove, move) {
        return None, visited;
      }
    }
    var nextState := p.apply(state, move);
    var hash := p.hash(nextState);
    if hash in visited {
      return None, visited;
    }
    visitedOut := visited + {hash};
    result, visitedOut := SearchFrom(p, nextState, g + 1, bound, path + [move], phase1, visitedOut);
    if result.Some? {
      AnswerStep(p, phase1, state, g, bound, path, move, result.value, visited, visited + {hash}, visitedOut);
    }
  }

  /** The last move of a non-empty path, found again from its name as the
      search reads it back. */
  method LastMoveOf(path: seq<int>) returns (lastMove: int)
    requires path != [] && 0 <= path[|path| - 1] < 18
    ensures lastMove == LastMove(path)
  {
    lastMove := GetMoveIndex(MOVE_NAMES[path[|path| - 1]]);
    NameIndexOf(path[|path| - 1]);
  }

  /** A solution found one move deeper, recorded with the first state's
      hash added, is one from here. */
  lemma FoundStep<S>(p: Puzzle<S>, phase1: bool, s: S, g: int, bound: int, last: int, move: int, rest: seq<int>,
                     visited: set<int>, mid: set<int>, after: set<int>)
    requires move in MoveList(phase1) && !IsRedundant(last, move)
    requires g + Heuristic(p, phase1, s) <= bound
    requires p.hash(p.apply(s, move)) !in visited && visited + {p.hash(p.apply(s, move))} <= mid <= after
    requires Solves(p, phase1, p.apply(s, move), g + 1, bound, move, rest)
    requires Recorded(p, p.apply(s, move), rest, mid, after)
    ensures Solves(p, phase1, s, g, bound, last, [move] + rest)
    ensures Recorded(p, s, [move] + rest, visited, after)
  {
    assert ([move] + rest)[0] == move && ([move] + rest)[1..] == rest;
    RecordedShrink(p, p.apply(s, move), rest, visited + {p.hash(p.apply(s, move))}, mid, after);
  }

  /** search from the start with bound e and a fresh visited set returns
      null. */
  ghost predicate FailsAt<S>(p: Puzzle<S>, start: S, phase1: bool, e: int)
  {
    SearchResult(p, start, 0, e, [], phase1, {}).0 == None
  }

  /** The path idaSearch returns when it starts at bound d: that of the
      first bound from d to the phase's deepest at which search succeeds. */
  ghost function IdaFrom<S>(p: Puzzle<S>, start: S, phase1: bool, d: int): Option<seq<int>>
    decreases MaxDepth(phase1) - d + 1
  {
    if d > MaxDepth(phase1) then None
    else
      var r := SearchResult(p, start, 0, d, [], phase1, {}).0;
      if r.Some? then Some(r.value.path) else IdaFrom(p, start, phase1, d + 1)
  }

  /** idaSearch gives up exactly when search fails at every bound it tries. */
  lemma {:induction false} IdaFromNone<S>(p: Puzzle<S>, start: S, phase1: bool, d: int)
    ensures IdaFrom(p, start, phase1, d) == None <==>
      forall e :: d <= e <= MaxDepth(phase1) ==> FailsAt(p, start, phase1, e)
    decreases MaxDepth(phase1) - d + 1
  {
    if d <= MaxDepth(phase1) {
      IdaFromNone(p, start, phase1, d + 1);
      if !FailsAt(p, start, phase1, d) {
        assert IdaFrom(p, start, phase1, d).Some?;
      }
    }
  }

  /** A path idaSearch returns is that of a bound at which search succeeds,
      every earlier bound from d having failed. */
  lemma {:induction false} IdaFromFirst<S>(p: Puzzle<S>, start: S, phase1: bool, d: int)
    requires IdaFrom(p, start, phase1, d).Some?
    ensures exists e ::
              d <= e <= MaxDepth(phase1) &&
              (forall e' :: d <= e' < e ==> FailsAt(p, start, phase1, e')) &&
              SearchResult(p, start, 0, e, [], phase1, {}).0.Some? &&
              SearchResult(p, start, 0, e, [], phase1, {}).0.value.path == IdaFrom(p, start, phase1, d).value
    decreases MaxDepth(phase1) - d + 1
  {
    if FailsAt(p, start, phase1, d) {
      IdaFromFirst(p, start, phase1, d + 1);
      var e :| d + 1 <= e <= MaxDepth(phase1) &&
        (forall e' :: d + 1 <= e' < e ==> FailsAt(p, start, phase1, e')) &&
        SearchResult(p, start, 0, e, [], phase1, {}).0.Some? &&
        SearchResult(p, start, 0, e, [], phase1, {}).0.value.path == IdaFrom(p, start, phase1, d + 1).value;
      assert forall e' :: d <= e' < e ==> FailsAt(p, start, phase1, e');
    } else {
      assert forall e' :: d <= e' < d ==> FailsAt(p, start, phase1, e');
    }
  }

  /** idaSearch: bounds from the start's heuristic up to the phase's
      deepest, each with a fresh visited set; the path of the first bound at
      which search succeeds, null when every bound fails. */
  method IdaSearch<S>(p: Puzzle<S>, start: S, phase1: bool) returns (result: Option<seq<int>>, ghost depth: int)
    ensures result == IdaFrom(p, start, phase1, Heuristic(p, phase1, start))
    ensures Heuristic(p, phase1, start) > MaxDepth(phase1) ==> result == None
    ensures Heuristic(p, phase1, start) == 0 ==> result == Some([])
    ensures result.Some? ==>
      Heuristic(p, phase1, start) <= depth <= MaxDepth(phase1) && |result.value| <= depth &&
      Solves(p, phase1, start, 0, depth, -1, result.value)
  {
    var bound := Heuristic(p, phase1, start);
    var d := bound;
    while d <= MaxDepth(phase1)
      invariant bound <= d
      invariant bound == 0 ==> d == 0
      invariant IdaFrom(p, start, phase1, d) == IdaFrom(p, start, phase1, bound)
    {
      var r, _ := SearchFrom(p, start, 0, d, [], phase1, {});
      if r.Some? {
        assert r.value.path[0..] == r.value.path;
        SolvesWithin(p, phase1, start, 0, d, -1, r.value.path);
        return Some(r.value.path), d;
      }
      d := d + 1;
    }
    return None, d;
  }

  // ---------------------------------------------------------------------
  // What a solution is, move by move

  /** The moves of a solution are all listed for the phase. */
  lemma {:induction false} SolvesListed<S>(p: Puzzle<S>, phase1: bool, s: S, g: int, bound: int, last: int, ext: seq<int>)
    requires Solves(p, phase1, s, g, bound, last, ext)
    ensures forall i :: 0 <= i < |ext| ==> ext[i] in MoveList(phase1)
    decreases |ext|
  {
    if ext != [] {
      SolvesListed(p, phase1, p.apply(s, ext[0]), g + 1, bound, ext[0], ext[1..]);
      forall i | 0 < i < |ext| ensures ext[i] in MoveList(phase1) {
        assert ext[i] == ext[1..][i - 1];
      }
    }
  }

  /** A solution never turns the same face twice in a row, nor the face of
      the move before it. */
  lemma {:induction false} SolvesNoRepeat<S>(p: Puzzle<S>, phase1: bool, s: S, g: int, bound: int, last: int, ext: seq<int>)
    requires Solves(p, phase1, s, g, bound, last, ext)
    ensures ext != [] ==> !IsRedundant(last, ext[0])
    ensures forall i :: 0 < i < |ext| ==> !IsRedundant(ext[i - 1], ext[i])
    decreases |ext|
  {
    if ext != [] {
      SolvesNoRepeat(p, phase1, p.apply(s, ext[0]), g + 1, bound, ext[0], ext[1..]);
      forall i | 0 < i < |ext| ensures !IsRedundant(ext[i - 1], ext[i]) {
        if i > 1 {
          assert ext[i - 1] == ext[1..][i - 2] && ext[i] == ext[1..][i - 1];
        }
      }
    }
  }

  /** Every state on a solution is within the bound: g plus the moves made
      so far plus its heuristic. In particular a solution is no longer than
      the bound allows. */
  lemma {:induction false} SolvesWithin<S>(p: Puzzle<S>, phase1: bool, s: S, g: int, bound: int, last: int, ext: seq<int>)
    requires Solves(p, phase1, s, g, bound, last, ext)
    ensures forall i :: 0 <= i <= |ext| ==> g + i + Heuristic(p, phase1, Run(p, s, ext[..i])) <= bound
    ensures g + |ext| <= bound
    decreases |ext|
  {
    if ext != [] {
      var next := p.apply(s, ext[0]);
      SolvesWithin(p, phase1, next, g + 1, bound, ext[0], ext[1..]);
      forall i | 0 < i <= |ext| ensures g + i + Heuristic(p, phase1, Run(p, s, ext[..i])) <= bound {
        assert ext[..i][1..] == ext[1..][..i - 1];
      }
      assert ext[..0] == [];
    }
    assert ext[..|ext|] == ext;
  }

  /** A solution ends where the heuristic is 0. */
  lemma {:induction false} SolvesEnds<S>(p: Puzzle<S>, phase1: bool, s: S, g: int, bound: int, last: int, ext: seq<int>)
    requires Solves(p, phase1, s, g, bound, last, ext)
    ensures Heuristic(p, phase1, Run(p, s, ext)) == 0
    decreases |ext|
  {
    if ext != [] {
      SolvesEnds(p, phase1, p.apply(s, ext[0]), g + 1, bound, ext[0], ext[1..]);
    }
  }

  /** The move-by-move facts of a solution, stated for all its states at
      once. */
  predicate SolutionFacts<S>(p: Puzzle<S>, phase1: bool, s: S, g: int, bound: int, last: int, ext: seq<int>)
  {
    (forall i :: 0 <= i < |ext| ==> ext[i] in MoveList(phase1)) &&
    (ext != [] ==> !IsRedundant(last, ext[0])) &&
    (forall i :: 0 < i < |ext| ==> !IsRedundant(ext[i - 1], ext[i])) &&
    (forall i :: 0 <= i <= |ext| ==> g + i + Heuristic(p, phase1, Run(p, s, ext[..i])) <= bound) &&
    Heuristic(p, phase1, Run(p, s, ext)) == 0
  }

  /** The facts of a non-empty extension hold for its tail from the next
      state, one move deeper. */
  lemma FactsTail<S>(p: Puzzle<S>, phase1: bool, s: S, g: int, bound: int, last: int, ext: seq<int>)
    requires ext != [] && SolutionFacts(p, phase1, s, g, bound, last, ext)
    ensures g + Heuristic(p, phase1, s) <= bound
    ensures SolutionFacts(p, phase1, p.apply(s, ext[0]), g + 1, bound, ext[0], ext[1..])
  {
    var next := p.apply(s, ext[0]);
    var rest := ext[1..];
    assert ext[..0] == [];
    forall i | 0 <= i <= |rest| ensures g + 1 + i + Heuristic(p, phase1, Run(p, next, rest[..i])) <= bound {
      assert ext[..i + 1][1..] == rest[..i];
    }
    forall i | 0 <= i < |rest| ensures rest[i] in MoveList(phase1) && (i > 0 ==> !IsRedundant(rest[i - 1], rest[i])) {
      assert rest[i] == ext[i + 1];
    }
  }

  /** A solution is exactly an extension with those facts. */
  lemma {:induction false} SolvesIffFacts<S>(p: Puzzle<S>, phase1: bool, s: S, g: int, bound: int, last: int, ext: seq<int>)
    ensures Solves(p, phase1, s, g, bound, last, ext) <==> SolutionFacts(p, phase1, s, g, bound, last, ext)
    decreases |ext|
  {
    if Solves(p, phase1, s, g, bound, last, ext) {
      SolvesListed(p, phase1, s, g, bound, last, ext);
      SolvesNoRepeat(p, phase1, s, g, bound, last, ext);
      SolvesWithin(p, phase1, s, g, bound, last, ext);
      SolvesEnds(p, phase1, s, g, bound, last, ext);
    }
    if SolutionFacts(p, phase1, s, g, bound, last, ext) {
      if ext == [] {
        assert ext[..0] == [];
      } else {
        FactsTail(p, phase1, s, g, bound, last, ext);
        SolvesIffFacts(p, phase1, p.apply(s, ext[0]), g + 1, bound, ext[0], ext[1..]);
      }
    }
  }

  /** The states a recorded extension steps into have pairwise different
      hashes, none of them seen before: the search never steps into a
      state it has already stepped into in the same iteration. */
  lemma {:induction false} RecordedDistinct<S>(p: Puzzle<S>, s: S, ext: seq<int>, before: set<int>, after: set<int>)
    requires Recorded(p, s, ext, before, after)
    ensures forall i :: 1 <= i <= |ext| ==> p.hash(Run(p, s, ext[..i])) !in before && p.hash(Run(p, s, ext[..i])) in after
    ensures forall i, j :: 1 <= i < j <= |ext| ==> p.hash(Run(p, s, ext[..i])) != p.hash(Run(p, s, ext[..j]))
    decreases |ext|
  {
    if ext != [] {
      var next := p.apply(s, ext[0]);
      var rest := ext[1..];
      RecordedDistinct(p, next, rest, before + {p.hash(next)}, after);
      forall i | 1 <= i <= |ext| ensures Run(p, s, ext[..i]) == Run(p, next, rest[..i - 1]) {
        assert ext[..i][1..] == rest[..i - 1];
      }
      assert rest[..0] == [];
    }
  }

  /** What a two-phase answer is: a phase-1 part of at most 12 moves that
      reaches phase-1 heuristic 0, then a phase-2 part of at most 18 moves
      that reaches phase-2 heuristic 0; each part uses its phase's moves
      and never turns the same face twice in a row. */
  predicate TwoPhaseSolution<S>(p: Puzzle<S>, start: S, sol: seq<int>, split: int)
  {
    0 <= split <= 12 && split <= |sol| <= split + 18 &&
    p.phase1H(Run(p, start, sol[..split])) == 0 &&
    p.phase2H(Run(p, start, sol)) == 0 &&
    (forall i :: 0 <= i < split ==> sol[i] in Pruning.PHASE1_MOVES) &&
    (forall i :: split <= i < |sol| ==> sol[i] in Pruning.PHASE2_MOVES) &&
    (forall i :: 0 < i < split ==> !IsRedundant(sol[i - 1], sol[i])) &&
    (forall i :: split < i < |sol| ==> !IsRedundant(sol[i - 1], sol[i]))
  }

  /** A phase-1 solution followed by a phase-2 solution from where it ends
      is a two-phase answer. */
  lemma JoinPhases<S>(p: Puzzle<S>, start: S, a: seq<int>, b: seq<int>, d1: int, d2: int)
    requires d1 <= 12 && d2 <= 18
    requires Solves(p, true, start, 0, d1, -1, a)
    requires Solves(p, false, Run(p, start, a), 0, d2, -1, b)
    ensures TwoPhaseSolution(p, start, a + b, |a|)
  {
    var middle := Run(p, start, a);
    SolvesIffFacts(p, true, start, 0, d1, -1, a);
    SolvesIffFacts(p, false, middle, 0, d2, -1, b);
    SolvesWithin(p, true, start, 0, d1, -1, a);
    SolvesWithin(p, false, middle, 0, d2, -1, b);
    assert (a + b)[..|a|] == a;
    assert forall i :: |a| <= i < |a + b| ==> (a + b)[i] == b[i - |a|];
    RunConcat(p, start, a, b);
  }

  /** solveTwoPhase: phase 1 from the start, its moves applied, then phase 2
      from there; the two paths joined. None stands for "No solution found",
      which is answered exactly when one of the two idaSearch calls fails. */
  method SolveTwoPhase<S>(p: Puzzle<S>, start: S) returns (solution: Option<seq<int>>, ghost split: int)
    ensures var first := IdaFrom(p, start, true, p.phase1H(start));
      solution == None <==>
        first == None || IdaFrom(p, Run(p, start, first.value), false, p.phase2H(Run(p, start, first.value))) == None
    ensures var first := IdaFrom(p, start, true, p.phase1H(start));
      solution.Some? ==>
        first.Some? && split == |first.value| &&
        solution.value == first.value + IdaFrom(p, Run(p, start, first.value), false, p.phase2H(Run(p, start, first.value))).value
    ensures p.phase1H(start) > 12 ==> solution == None
    ensures p.phase1H(start) == 0 && p.phase2H(start) == 0 ==> solution == Some([])
    ensures solution.Some? ==> TwoPhaseSolution(p, start, solution.value, split)
  {
    var phase1Solution, d1 := IdaSearch(p, start, true);
    if phase1Solution == None {
      return None, 0;
    }
    var middle := Run(p, start, phase1Solution.value);
    var phase2Solution, d2 := IdaSearch(p, middle, false);
    if phase2Solution == None {
      return None, 0;
    }
    var a, b := phase1Solution.value, phase2Solution.value;
    JoinPhases(p, start, a, b, d1, d2);
    solution, split := Some(a + b), |a|;
  }
}
