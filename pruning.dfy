// The four pruning tables: a breadth-first search from the solved
// coordinate 0 that stores, as a byte, each coordinate's distance from it.
// The byte 99 marks a coordinate not reached yet; a distance is read back
// with & 0xFF and stored with a (byte) cast, so a distance of 98 would be
// stored as 99 and look unreached. The search therefore ends with exact
// distances as long as no entry is 98, and is complete (closed under the
// moves) in any case.
//
// The search is stated over the graph of the coordinate space: G[s] lists
// the successors of s, one per move of the phase, in move order.

module Pruning {
  import opened Lehmer
  import opened ScatterRows
  import opened MoveTables
  import opened Coordinates

  /** Java's byte. */
  newtype Byte = x: int | -128 <= x < 128

  /** The (byte) cast: keep the low eight bits, read them as signed. */
  function ToByte(x: int): (b: Byte)
    ensures -128 <= x < 128 ==> b as int == x
  {
    (((x + 128) % 256) - 128) as Byte
  }

  /** b & 0xFF: the byte read as unsigned. */
  function Unsigned(b: Byte): (u: int)
    ensures 0 <= u < 256 && ToByte(u) == b
    ensures b >= 0 ==> u == b as int
  {
    if b < 0 then b as int + 256 else b as int
  }

  /** The marker of an entry not reached yet. */
  const UNSEEN: Byte := 99

  /** The (byte) cast of an unsigned byte plus one is the marker exactly
      when that byte is 98. */
  lemma NextMarkUnseen(b: Byte)
    ensures ToByte(Unsigned(b) + 1) == UNSEEN <==> b == 98
  {
  }

  // ---------------------------------------------------------------------
  // The coordinate spaces and their moves

  /** The four coordinates a table is indexed by. */
  datatype Space = CornerOrient | EdgeOrient | CornerPerm | UdEdgePerm

  /** 3^7, 2^11, 8! and 8! entries. */
  function Size(k: Space): (n: nat)
    ensures n > 0
  {
    match k
    case CornerOrient => 2187
    case EdgeOrient => 2048
    case CornerPerm => 40320
    case UdEdgePerm => 40320
  }

  /** The moves of phase 1, as listed: U, U', U2, D, D', D2 and moves 14..17. */
  const PHASE1_MOVES: seq<int> := [0, 1, 2, 3, 4, 5, 14, 15, 16, 17]

  /** The moves of phase 2: all eighteen. */
  const PHASE2_MOVES: seq<int> := [0, 1, 2, 3, 4, 5, 6, 7, 8, 9, 10, 11, 12, 13, 14, 15, 16, 17]

  ghost predicate ValidMoves(ms: seq<int>)
  {
    forall i :: 0 <= i < |ms| ==> 0 <= ms[i] < MOVE_COUNT
  }

  /** The orientation tables search with the phase 1 moves, the permutation
      tables with the phase 2 moves. */
  function Moves(k: Space): (ms: seq<int>)
    ensures ValidMoves(ms)
  {
    if k.CornerOrient? || k.EdgeOrient? then PHASE1_MOVES else PHASE2_MOVES
  }

  /** A row of eight slots has 8! codes. */
  lemma EightSlots(row: seq<int>)
    requires InRange(row, 8)
    ensures InRange(row, |row|) && Factorial(|row|) == 40320
  {
    FactorialEight();
  }

  /** applyCornerPermMove on a coordinate of the corner permutation space. */
  function CornerPermNext(T: Tables, s: nat, m: nat): (r: nat)
    requires WellFormed(T) && s < 40320 && m < MOVE_COUNT
    ensures r < 40320
  {
    EightSlots(T.corner[m]);
    PermNextBound(T.corner[m], s);
    PermNext(T.corner[m], s)
  }

  /** applyEdgePermMove on a coordinate of the U/D-edge permutation space. */
  function UdEdgePermNext(T: Tables, s: nat, m: nat): (r: nat)
    requires WellFormed(T) && s < 40320 && m < MOVE_COUNT
    ensures r < 40320
  {
    EightSlots(T.udEdge[m]);
    PermNextBound(T.udEdge[m], s);
    PermNext(T.udEdge[m], s)
  }

  /** The transition of coordinate s under move m. */
  function Next(k: Space, T: Tables, s: nat, m: nat): (r: nat)
    requires WellFormed(T) && s < Size(k) && m < MOVE_COUNT
    ensures r < Size(k)
  {
    match k
    case CornerOrient => CornerOrientNext(T, s, m)
    case EdgeOrient => EdgeOrientNext(T, s, m)
    case CornerPerm => CornerPermNext(T, s, m)
    case UdEdgePerm => UdEdgePermNext(T, s, m)
  }

  /** The apply method each generator calls. */
  method Step(k: Space, T: Tables, s: nat, m: nat) returns (n: int)
    requires WellFormed(T) && s < Size(k) && m < MOVE_COUNT
    ensures n == Next(k, T, s, m)
  {
    match k
    case CornerOrient =>
      n := ApplyCornerOrientMove(T, s, m);
    case EdgeOrient =>
      n := ApplyEdgeOrientMove(T, s, m);
    case CornerPerm =>
      n := CornerPermStep(T, s, m);
    case UdEdgePerm =>
      n := UdEdgePermStep(T, s, m);
  }

  /** applyCornerPermMove on a coordinate below 8!. */
  method CornerPermStep(T: Tables, s: nat, m: nat) returns (n: int)
    requires WellFormed(T) && s < 40320 && m < MOVE_COUNT
    ensures n == CornerPermNext(T, s, m)
  {
    EightSlots(T.corner[m]);
    n := ApplyCornerPermMove(T, s, m);
  }

  /** applyEdgePermMove on a coordinate below 8!. */
  method UdEdgePermStep(T: Tables, s: nat, m: nat) returns (n: int)
    requires WellFormed(T) && s < 40320 && m < MOVE_COUNT
    ensures n == UdEdgePermNext(T, s, m)
  {
    EightSlots(T.udEdge[m]);
    n := ApplyEdgePermMove(T, s, m);
  }

  /** Every successor lies in [0, |G|). */
  ghost predicate IsGraph(G: seq<seq<int>>)
  {
    forall s, i :: 0 <= s < |G| && 0 <= i < |G[s]| ==> 0 <= G[s][i] < |G|
  }

  /** G is the graph of a coordinate space: G[s][i] is the successor of s
      under the i-th move of the phase. (The trigger keeps the transitions
      out of reasoning that is only about the graph.) */
  ghost predicate IsGraphOf(G: seq<seq<int>>, k: Space, T: Tables)
    requires WellFormed(T)
  {
    |G| == Size(k) && IsGraph(G) &&
    (forall s :: 0 <= s < Size(k) ==> |G[s]| == |Moves(k)|) &&
    forall s, i {:trigger Next(k, T, s, Moves(k)[i])} :: 0 <= s < Size(k) && 0 <= i < |Moves(k)| ==>
      G[s][i] == Next(k, T, s, Moves(k)[i])
  }

  /** The graph of a coordinate space. */
  ghost function Graph(k: Space, T: Tables): (G: seq<seq<int>>)
    requires WellFormed(T)
    ensures IsGraphOf(G, k, T)
  {
    seq(Size(k), s requires 0 <= s < Size(k) =>
      seq(|Moves(k)|, i requires 0 <= i < |Moves(k)| => Next(k, T, s, Moves(k)[i])))
  }

  /** The successor of s under the i-th move of the phase. */
  method Successor(k: Space, T: Tables, s: nat, i: nat, ghost G: seq<seq<int>>) returns (n: int)
    requires WellFormed(T) && IsGraphOf(G, k, T) && s < Size(k) && i < |Moves(k)|
    ensures n == G[s][i]
  {
    n := Step(k, T, s, Moves(k)[i]);
  }

  // ---------------------------------------------------------------------
  // One visit: the inner loop over the moves

  /** All entries index a table of n. */
  ghost predicate Within(q: seq<int>, n: nat)
  {
    forall i :: 0 <= i < |q| ==> 0 <= q[i] < n
  }

  /** The table after the inner loop and the coordinates it queued. */
  datatype Visited = Visited(table: seq<Byte>, queued: seq<int>)

  /** The inner loop over the successors succ of a coordinate: each one
      still marked unseen gets the mark and is queued, in order. */
  function Visit(tbl: seq<Byte>, mark: Byte, succ: seq<int>): (v: Visited)
    requires Within(succ, |tbl|)
    ensures |v.table| == |tbl|
    ensures forall t :: 0 <= t < |tbl| ==> v.table[t] == tbl[t] || (tbl[t] == UNSEEN && v.table[t] == mark)
    ensures forall j :: 0 <= j < |v.queued| ==>
      0 <= v.queued[j] < |tbl| && tbl[v.queued[j]] == UNSEEN && v.table[v.queued[j]] == mark
  {
    if succ == [] then Visited(tbl, [])
    else
      var v := Visit(tbl, mark, succ[..|succ| - 1]);
      var n := succ[|succ| - 1];
      if v.table[n] == UNSEEN then Visited(v.table[n := mark], v.queued + [n]) else v
  }

  lemma PrefixSnoc(q: seq<int>, i: nat, n: nat)
    requires i < |q| && Within(q, n)
    ensures q[..i + 1] == q[..i] + [q[i]] && Within(q[..i], n)
  {
  }

  /** One more successor: the loop body. */
  lemma VisitSnoc(tbl: seq<Byte>, mark: Byte, succ: seq<int>, n: int)
    requires Within(succ, |tbl|) && 0 <= n < |tbl|
    ensures Within(succ + [n], |tbl|)
    ensures var v := Visit(tbl, mark, succ);
      Visit(tbl, mark, succ + [n]) == if v.table[n] == UNSEEN then Visited(v.table[n := mark], v.queued + [n]) else v
  {
    assert (succ + [n])[..|succ|] == succ;
  }

  /** With a real mark, every successor is marked afterwards. */
  lemma {:induction false} VisitMarks(tbl: seq<Byte>, mark: Byte, succ: seq<int>)
    requires Within(succ, |tbl|) && mark != UNSEEN
    ensures forall i :: 0 <= i < |succ| ==> Visit(tbl, mark, succ).table[succ[i]] != UNSEEN
  {
    if succ != [] {
      var succ' := succ[..|succ| - 1];
      VisitMarks(tbl, mark, succ');
      forall i | 0 <= i < |succ| - 1 ensures Visit(tbl, mark, succ').table[succ[i]] != UNSEEN {
        assert succ[i] == succ'[i];
      }
    }
  }

  /** The coordinates marked unseen. */
  ghost function Unseen(tbl: seq<Byte>): set<int>
  {
    set t | 0 <= t < |tbl| && tbl[t] == UNSEEN
  }

  lemma UnseenMark(tbl: seq<Byte>, n: int, mark: Byte)
    requires 0 <= n < |tbl| && tbl[n] == UNSEEN && mark != UNSEEN
    ensures Unseen(tbl[n := mark]) == Unseen(tbl) - {n} && n in Unseen(tbl)
  {
  }

  /** With a real mark, every coordinate newly marked is queued, and each
      queued coordinate leaves the unseen set. */
  lemma {:induction false} VisitQueuesNew(tbl: seq<Byte>, mark: Byte, succ: seq<int>)
    requires Within(succ, |tbl|) && mark != UNSEEN
    ensures var v := Visit(tbl, mark, succ);
      (forall t :: 0 <= t < |tbl| && tbl[t] == UNSEEN && v.table[t] != UNSEEN ==> t in v.queued) &&
      |Unseen(v.table)| + |v.queued| == |Unseen(tbl)|
  {
    if succ != [] {
      var succ' := succ[..|succ| - 1];
      VisitQueuesNew(tbl, mark, succ');
      var v := Visit(tbl, mark, succ');
      var n := succ[|succ| - 1];
      if v.table[n] == UNSEEN {
        UnseenMark(v.table, n, mark);
      }
    }
  }

  /** With the marker itself as the mark, the table does not change. */
  lemma {:induction false} VisitUnseenMark(tbl: seq<Byte>, succ: seq<int>)
    requires Within(succ, |tbl|)
    ensures Visit(tbl, UNSEEN, succ).table == tbl
  {
    if succ != [] {
      VisitUnseenMark(tbl, succ[..|succ| - 1]);
    }
  }

  /** Each queued coordinate is one of the successors. */
  lemma {:induction false} VisitWitness(tbl: seq<Byte>, mark: Byte, succ: seq<int>, j: nat) returns (i: nat)
    requires Within(succ, |tbl|) && j < |Visit(tbl, mark, succ).queued|
    ensures i < |succ| && succ[i] == Visit(tbl, mark, succ).queued[j]
  {
    var succ' := succ[..|succ| - 1];
    var v := Visit(tbl, mark, succ');
    if j < |v.queued| {
      i := VisitWitness(tbl, mark, succ', j);
    } else {
      i := |succ| - 1;
    }
  }

  /** The inner loop of the generators: for each move, the successor of s
      gets the mark and is queued if it is still marked unseen. */
  method Expand(k: Space, T: Tables, ghost G: seq<seq<int>>, table: array<Byte>, s: nat, mark: Byte, queue: seq<int>)
    returns (queue': seq<int>)
    requires WellFormed(T) && IsGraphOf(G, k, T) && table.Length == Size(k) && s < Size(k)
    modifies table
    ensures var v := Visit(old(table[..]), mark, G[s]);
      table[..] == v.table && queue' == queue + v.queued
  {
    var ms := Moves(k);
    ghost var succ := G[s];
    ghost var before := table[..];
    assert Within(succ, |before|);
    queue' := queue;
    for i := 0 to |ms|
      invariant var v := Visit(before, mark, succ[..i]);
        table[..] == v.table && queue' == queue + v.queued
    {
      PrefixSnoc(succ, i, |before|);
      var n := Successor(k, T, s, i, G);
      VisitSnoc(before, mark, succ[..i], n);
      if table[n] == UNSEEN {
        table[n] := mark;
        queue' := queue' + [n];
      }
    }
    assert succ[..|ms|] == succ;
  }

  // ---------------------------------------------------------------------
  // The search invariants

  /** The entry is a distance (anything but the marker). */
  ghost predicate Labelled(tbl: seq<Byte>, t: int)
  {
    0 <= t < |tbl| && tbl[t] != UNSEEN
  }

  /** No entry is 98, the distance that would be stored as the marker. */
  ghost predicate NoDeep(tbl: seq<Byte>)
  {
    forall t :: 0 <= t < |tbl| ==> tbl[t] != 98
  }

  /** Every successor of s is marked. */
  ghost predicate Expanded(G: seq<seq<int>>, tbl: seq<Byte>, s: nat)
    requires IsGraph(G) && |tbl| == |G| && s < |G|
  {
    forall i :: 0 <= i < |G[s]| ==> tbl[G[s][i]] != UNSEEN
  }

  /** Every successor of s is marked, at most one further than s. */
  ghost predicate Settled(G: seq<seq<int>>, tbl: seq<Byte>, s: nat)
    requires IsGraph(G) && |tbl| == |G| && s < |G|
  {
    forall i :: 0 <= i < |G[s]| ==> tbl[G[s][i]] != UNSEEN && tbl[G[s][i]] as int <= tbl[s] as int + 1
  }

  /** t is the successor of a coordinate one nearer to 0. */
  ghost predicate HasParent(G: seq<seq<int>>, tbl: seq<Byte>, t: int)
    requires IsGraph(G) && |tbl| == |G|
  {
    exists p, i :: 0 <= p < |G| && 0 <= i < |G[p]| && G[p][i] == t &&
      tbl[p] != UNSEEN && tbl[p] as int + 1 == tbl[t] as int
  }

  /** What holds however deep the search goes: 0 has distance 0, and every
      marked coordinate that has left the queue, with a label other than 98,
      has all its successors marked. */
  ghost predicate Explored(G: seq<seq<int>>, tbl: seq<Byte>, q: seq<int>)
  {
    IsGraph(G) && |tbl| == |G| > 0 && Within(q, |G|) && tbl[0] == 0 &&
    forall s :: 0 <= s < |tbl| && tbl[s] != UNSEEN && tbl[s] != 98 && s !in q ==> Expanded(G, tbl, s)
  }

  /** Distances lie in 0..97. */
  ghost predicate SmallLabels(tbl: seq<Byte>)
  {
    forall t :: 0 <= t < |tbl| ==> tbl[t] == UNSEEN || 0 <= tbl[t] <= 97
  }

  /** The queue holds marked coordinates in non-decreasing order of
      distance, spanning at most two distances; nothing marked lies more
      than one past its head, and nothing dequeued past its head. */
  ghost predicate Frontier(tbl: seq<Byte>, q: seq<int>)
    requires Within(q, |tbl|)
  {
    (forall i :: 0 <= i < |q| ==> tbl[q[i]] != UNSEEN) &&
    (forall i, j :: 0 <= i <= j < |q| ==> tbl[q[i]] <= tbl[q[j]] && tbl[q[j]] as int <= tbl[q[i]] as int + 1) &&
    (q != [] ==> forall t :: Labelled(tbl, t) ==>
       tbl[t] as int <= tbl[q[0]] as int + 1 && (t !in q ==> tbl[t] <= tbl[q[0]]))
  }

  /** The breadth-first layering, while no entry is 98. */
  ghost predicate Layered(G: seq<seq<int>>, tbl: seq<Byte>, q: seq<int>)
    requires IsGraph(G) && |tbl| == |G| && Within(q, |G|)
  {
    SmallLabels(tbl) && Frontier(tbl, q) &&
    (forall s :: Labelled(tbl, s) && s !in q ==> Settled(G, tbl, s)) &&
    (forall t :: Labelled(tbl, t) && t != 0 ==> HasParent(G, tbl, t))
  }

  ghost predicate SearchInv(G: seq<seq<int>>, tbl: seq<Byte>, q: seq<int>)
  {
    Explored(G, tbl, q) && (NoDeep(tbl) ==> Layered(G, tbl, q))
  }

  /** Queue entries whose label is 98: those that will queue their
      successors without marking them. */
  function Count98(tbl: seq<Byte>, q: seq<int>): nat
    requires Within(q, |tbl|)
  {
    if q == [] then 0 else (if tbl[q[0]] == 98 then 1 else 0) + Count98(tbl, q[1..])
  }

  lemma {:induction false} Count98Concat(tbl: seq<Byte>, a: seq<int>, b: seq<int>)
    requires Within(a, |tbl|) && Within(b, |tbl|)
    ensures Within(a + b, |tbl|)
    ensures Count98(tbl, a + b) == Count98(tbl, a) + Count98(tbl, b)
    decreases |a|
  {
    if a != [] {
      assert (a + b)[1..] == a[1..] + b;
      Count98Concat(tbl, a[1..], b);
    } else {
      assert a + b == b;
    }
  }

  lemma {:induction false} Count98Unseen(tbl: seq<Byte>, q: seq<int>)
    requires Within(q, |tbl|)
    requires forall i :: 0 <= i < |q| ==> tbl[q[i]] == UNSEEN
    ensures Count98(tbl, q) == 0
    decreases |q|
  {
    if q != [] {
      Count98Unseen(tbl, q[1..]);
    }
  }

  // ---------------------------------------------------------------------
  // One step of the search preserves the invariants

  /** s takes the place of some index of q. */
  lemma Position(q: seq<int>, x: int) returns (j: nat)
    requires x in q
    ensures j < |q| && q[j] == x
  {
    j :| 0 <= j < |q| && q[j] == x;
  }

  /** An entry missing from the new queue was at most the dequeued head. */
  lemma TailMember(q: seq<int>, added: seq<int>, t: int)
    requires q != [] && t !in q[1..] + added
    ensures t in q ==> t == q[0]
  {
    forall j | 0 < j < |q| ensures q[j] != t {
      assert (q[1..] + added)[j - 1] == q[j];
    }
  }

  /** The table entries and queue after dequeuing q[0] and visiting it. */
  ghost predicate Stepped(G: seq<seq<int>>, tbl: seq<Byte>, q: seq<int>, tbl': seq<Byte>, added: seq<int>)
  {
    IsGraph(G) && |tbl| == |G| && Within(q, |G|) && q != [] &&
    Visit(tbl, ToByte(Unsigned(tbl[q[0]]) + 1), G[q[0]]) == Visited(tbl', added)
  }

  /** What a visit does, when the head of the queue has distance d and
      labels stay below 98. */
  ghost predicate VisitedAt(G: seq<seq<int>>, tbl: seq<Byte>, q: seq<int>, tbl': seq<Byte>, added: seq<int>, d: int)
  {
    IsGraph(G) && |tbl| == |tbl'| == |G| && Within(q, |G|) && q != [] && Within(added, |G|) &&
    tbl[q[0]] as int == d && 0 <= d <= 97 &&
    (forall t :: 0 <= t < |tbl| ==> tbl'[t] == tbl[t] || (tbl[t] == UNSEEN && tbl'[t] as int == d + 1)) &&
    (forall t :: 0 <= t < |tbl| && tbl[t] == UNSEEN && tbl'[t] != UNSEEN ==> t in added) &&
    (forall j :: 0 <= j < |added| ==> tbl[added[j]] == UNSEEN && tbl'[added[j]] as int == d + 1) &&
    (forall i :: 0 <= i < |G[q[0]]| ==> tbl'[G[q[0]][i]] != UNSEEN) &&
    (added != [] ==> d + 1 <= 97)
  }

  /** While no entry is 98, a step is a visit with the next distance. */
  lemma StepVisits(G: seq<seq<int>>, tbl: seq<Byte>, q: seq<int>, tbl': seq<Byte>, added: seq<int>)
    requires Stepped(G, tbl, q, tbl', added) && SearchInv(G, tbl, q) && NoDeep(tbl')
    ensures NoDeep(tbl) && Layered(G, tbl, q)
    ensures VisitedAt(G, tbl, q, tbl', added, tbl[q[0]] as int)
  {
    var s := q[0];
    var mark := ToByte(Unsigned(tbl[s]) + 1);
    forall t | 0 <= t < |tbl| ensures tbl[t] != 98 {
      assert tbl'[t] != 98;
    }
    var d := tbl[s] as int;
    assert 0 <= d <= 97;
    assert mark as int == d + 1;
    VisitQueuesNew(tbl, mark, G[s]);
    VisitMarks(tbl, mark, G[s]);
    if added != [] {
      assert tbl'[added[0]] as int == d + 1;
    }
  }

  lemma FrontierStep(G: seq<seq<int>>, tbl: seq<Byte>, q: seq<int>, tbl': seq<Byte>, added: seq<int>, d: int)
    requires VisitedAt(G, tbl, q, tbl', added, d) && Frontier(tbl, q)
    ensures Within(q[1..] + added, |G|) && Frontier(tbl', q[1..] + added)
  {
    var q' := q[1..] + added;
    var r := |q| - 1;
    forall i | 0 <= i < |q'|
      ensures 0 <= q'[i] < |G| && tbl'[q'[i]] != UNSEEN && d <= tbl'[q'[i]] as int <= d + 1
      ensures i < r ==> q'[i] == q[i + 1] && tbl'[q'[i]] == tbl[q[i + 1]]
      ensures i >= r ==> tbl'[q'[i]] as int == d + 1
    {
      if i < r {
        assert q'[i] == q[i + 1];
      } else {
        assert q'[i] == added[i - r];
      }
    }
    forall i, j | 0 <= i <= j < |q'|
      ensures tbl'[q'[i]] <= tbl'[q'[j]] && tbl'[q'[j]] as int <= tbl'[q'[i]] as int + 1
    {
      if j < r {
        assert tbl[q[i + 1]] <= tbl[q[j + 1]];
      }
    }
    if q' != [] {
      forall t | Labelled(tbl', t)
        ensures tbl'[t] as int <= tbl'[q'[0]] as int + 1 && (t !in q' ==> tbl'[t] <= tbl'[q'[0]])
      {
        if tbl[t] == UNSEEN {
          assert t in added;
        } else if t !in q' {
          TailMember(q, added, t);
        }
      }
    }
  }

  lemma SettledStep(G: seq<seq<int>>, tbl: seq<Byte>, q: seq<int>, tbl': seq<Byte>, added: seq<int>, d: int)
    requires VisitedAt(G, tbl, q, tbl', added, d) && Frontier(tbl, q)
    requires forall s :: Labelled(tbl, s) && s !in q ==> Settled(G, tbl, s)
    ensures forall t :: Labelled(tbl', t) && t !in q[1..] + added ==> Settled(G, tbl', t)
  {
    var q' := q[1..] + added;
    forall t | Labelled(tbl', t) && t !in q' ensures Settled(G, tbl', t) {
      assert tbl'[t] == tbl[t] && Labelled(tbl, t);
      if t == q[0] {
        forall i | 0 <= i < |G[t]| ensures tbl'[G[t][i]] as int <= tbl'[t] as int + 1 {
          var n := G[t][i];
          if tbl[n] != UNSEEN {
            assert Labelled(tbl, n);
          }
        }
      } else {
        TailMember(q, added, t);
        assert Settled(G, tbl, t);
      }
    }
  }

  lemma ParentStep(G: seq<seq<int>>, tbl: seq<Byte>, q: seq<int>, tbl': seq<Byte>, added: seq<int>, d: int)
    requires Stepped(G, tbl, q, tbl', added) && VisitedAt(G, tbl, q, tbl', added, d)
    requires forall t :: Labelled(tbl, t) && t != 0 ==> HasParent(G, tbl, t)
    ensures forall t :: Labelled(tbl', t) && t != 0 ==> HasParent(G, tbl', t)
  {
    var s := q[0];
    var mark := ToByte(Unsigned(tbl[s]) + 1);
    forall t | Labelled(tbl', t) && t != 0 ensures HasParent(G, tbl', t) {
      if tbl[t] == UNSEEN {
        var j := Position(added, t);
        var i := VisitWitness(tbl, mark, G[s], j);
        assert G[s][i] == t && tbl'[s] == tbl[s];
      } else {
        assert HasParent(G, tbl, t);
        var p, i :| 0 <= p < |G| && 0 <= i < |G[p]| && G[p][i] == t &&
          tbl[p] != UNSEEN && tbl[p] as int + 1 == tbl[t] as int;
        assert tbl'[p] == tbl[p];
      }
    }
  }

  lemma ExploredStep(G: seq<seq<int>>, tbl: seq<Byte>, q: seq<int>, tbl': seq<Byte>, added: seq<int>)
    requires Stepped(G, tbl, q, tbl', added) && Explored(G, tbl, q)
    ensures Explored(G, tbl', q[1..] + added)
  {
    var s := q[0];
    var mark := ToByte(Unsigned(tbl[s]) + 1);
    var q' := q[1..] + added;
    assert Within(q', |G|) by {
      forall i | 0 <= i < |q'| ensures 0 <= q'[i] < |G| {
        if i < |q| - 1 {
          assert q'[i] == q[i + 1];
        } else {
          assert q'[i] == added[i - (|q| - 1)];
        }
      }
    }
    NextMarkUnseen(tbl[s]);
    if mark == UNSEEN {
      VisitUnseenMark(tbl, G[s]);
    } else {
      VisitQueuesNew(tbl, mark, G[s]);
      VisitMarks(tbl, mark, G[s]);
    }
    forall t | 0 <= t < |tbl'| && tbl'[t] != UNSEEN && tbl'[t] != 98 && t !in q'
      ensures Expanded(G, tbl', t)
    {
      assert tbl'[t] == tbl[t];
      if t != s {
        TailMember(q, added, t);
        assert Expanded(G, tbl, t);
      }
    }
  }

  /** The lexicographic measure of the outer loop: unseen entries, then
      queued entries that hold 98, then the queue length. */
  ghost predicate Shrinks(tbl: seq<Byte>, q: seq<int>, tbl': seq<Byte>, q': seq<int>)
    requires Within(q, |tbl|) && Within(q', |tbl'|)
  {
    |Unseen(tbl')| < |Unseen(tbl)| ||
    (|Unseen(tbl')| == |Unseen(tbl)| &&
     (Count98(tbl', q') < Count98(tbl, q) || (Count98(tbl', q') == Count98(tbl, q) && |q'| < |q|)))
  }

  /** Dequeuing an entry that holds 98 visits with the marker, changes
      nothing and lowers the count of 98s. */
  lemma MeasureDeep(G: seq<seq<int>>, tbl: seq<Byte>, q: seq<int>, added: seq<int>)
    requires IsGraph(G) && |tbl| == |G| && Within(q, |G|) && q != [] && tbl[q[0]] == 98
    requires Visit(tbl, UNSEEN, G[q[0]]) == Visited(tbl, added)
    ensures Within(q[1..] + added, |tbl|) && Count98(tbl, q[1..] + added) < Count98(tbl, q)
  {
    Count98Concat(tbl, q[1..], added);
    Count98Unseen(tbl, added);
  }

  lemma MeasureStep(G: seq<seq<int>>, tbl: seq<Byte>, q: seq<int>, tbl': seq<Byte>, added: seq<int>)
    requires Stepped(G, tbl, q, tbl', added)
    ensures Within(q[1..] + added, |tbl'|) && Shrinks(tbl, q, tbl', q[1..] + added)
  {
    var s := q[0];
    var mark := ToByte(Unsigned(tbl[s]) + 1);
    NextMarkUnseen(tbl[s]);
    if mark == UNSEEN {
      VisitUnseenMark(tbl, G[s]);
      MeasureDeep(G, tbl, q, added);
    } else {
      VisitQueuesNew(tbl, mark, G[s]);
      Count98Concat(tbl', q[1..], added);
      if added == [] {
        assert tbl' == tbl;
        assert q[1..] + added == q[1..];
      }
    }
  }

  /** While no entry is 98, a step keeps the layering. */
  lemma LayeredStep(G: seq<seq<int>>, tbl: seq<Byte>, q: seq<int>, tbl': seq<Byte>, added: seq<int>)
    requires Stepped(G, tbl, q, tbl', added) && SearchInv(G, tbl, q) && NoDeep(tbl')
    ensures Within(q[1..] + added, |G|) && Layered(G, tbl', q[1..] + added)
  {
    StepVisits(G, tbl, q, tbl', added);
    var d := tbl[q[0]] as int;
    FrontierStep(G, tbl, q, tbl', added, d);
    SettledStep(G, tbl, q, tbl', added, d);
    ParentStep(G, tbl, q, tbl', added, d);
    assert SmallLabels(tbl');
  }

  /** One iteration of the outer loop keeps the invariants and shrinks the
      measure. */
  lemma SearchStep(G: seq<seq<int>>, tbl: seq<Byte>, q: seq<int>, tbl': seq<Byte>, added: seq<int>)
    requires Stepped(G, tbl, q, tbl', added) && SearchInv(G, tbl, q)
    ensures SearchInv(G, tbl', q[1..] + added)
    ensures Within(q[1..] + added, |tbl'|) && Shrinks(tbl, q, tbl', q[1..] + added)
  {
    ExploredStep(G, tbl, q, tbl', added);
    MeasureStep(G, tbl, q, tbl', added);
    if NoDeep(tbl') {
      LayeredStep(G, tbl, q, tbl', added);
    }
  }

  // ---------------------------------------------------------------------
  // The generators

  /** The table the search starts from: 0 at distance 0, the rest unseen. */
  function Initial(n: nat): (tbl: seq<Byte>)
    requires n > 0
    ensures |tbl| == n && tbl[0] == 0 && forall t :: 0 < t < n ==> tbl[t] == UNSEEN
  {
    seq(n, t => if t == 0 then 0 else UNSEEN)
  }

  lemma SearchStart(G: seq<seq<int>>)
    requires IsGraph(G) && |G| > 0
    ensures SearchInv(G, Initial(|G|), [0])
  {
    var tbl := Initial(|G|);
    assert forall t :: Labelled(tbl, t) ==> t == 0;
  }

  /** Every coordinate marked with a distance other than 98 has all its
      successors marked. */
  ghost predicate Complete(G: seq<seq<int>>, tbl: seq<Byte>)
  {
    IsGraph(G) && |tbl| == |G| > 0 && tbl[0] == 0 &&
    forall s :: 0 <= s < |tbl| && tbl[s] != UNSEEN && tbl[s] != 98 ==> Expanded(G, tbl, s)
  }

  /** Every marked coordinate holds a distance in 0..97, its successors lie
      at most one further, and each one but 0 is the successor of one a
      step nearer. */
  ghost predicate Exact(G: seq<seq<int>>, tbl: seq<Byte>)
    requires IsGraph(G) && |tbl| == |G|
  {
    SmallLabels(tbl) &&
    (forall s :: Labelled(tbl, s) ==> Settled(G, tbl, s)) &&
    (forall t :: Labelled(tbl, t) && t != 0 ==> HasParent(G, tbl, t))
  }

  /** The pruning table of a coordinate space: generatePhase1CornerTable,
      generatePhase1EdgeTable, generatePhase2CornerTable and
      generatePhase2EdgeTable, which differ only in the space. */
  method GenerateTable(k: Space, T: Tables, ghost G: seq<seq<int>>) returns (table: array<Byte>)
    requires WellFormed(T) && IsGraphOf(G, k, T)
    ensures table.Length == Size(k) && Complete(G, table[..])
    ensures NoDeep(table[..]) ==> Exact(G, table[..])
  {
    table := new Byte[Size(k)](_ => UNSEEN);
    table[0] := 0;
    var queue := [0];
    assert table[..] == Initial(|G|);
    SearchStart(G);
    while queue != []
      invariant table.Length == |G| && SearchInv(G, table[..], queue)
      decreases |Unseen(table[..])|, Count98(table[..], queue), |queue|
    {
      ghost var before, q := table[..], queue;
      var state := queue[0];
      queue := queue[1..];
      var distance := Unsigned(table[state]);
      queue := Expand(k, T, G, table, state, ToByte(distance + 1), queue);
      ghost var added := queue[|q| - 1..];
      assert queue == q[1..] + added;
      SearchStep(G, before, q, table[..], added);
    }
  }

  // ---------------------------------------------------------------------
  // What an exact table means: shortest distances from 0

  /** One move leads from a to b. */
  ghost predicate Edge(G: seq<seq<int>>, a: int, b: int)
  {
    0 <= a < |G| && exists i :: 0 <= i < |G[a]| && G[a][i] == b
  }

  /** w is a walk from the solved coordinate 0 along moves. */
  ghost predicate IsWalk(G: seq<seq<int>>, w: seq<int>)
  {
    |w| > 0 && w[0] == 0 && forall j :: 0 <= j < |w| - 1 ==> Edge(G, w[j], w[j + 1])
  }

  /** No walk is shorter than the table says: the end of a walk of n moves
      is marked with at most n. */
  lemma {:induction false} WalkBound(G: seq<seq<int>>, tbl: seq<Byte>, w: seq<int>)
    requires IsGraph(G) && |tbl| == |G| > 0 && tbl[0] == 0 && Exact(G, tbl) && IsWalk(G, w)
    ensures Labelled(tbl, w[|w| - 1]) && tbl[w[|w| - 1]] as int <= |w| - 1
    decreases |w|
  {
    if |w| > 1 {
      var w' := w[..|w| - 1];
      assert IsWalk(G, w') by {
        forall j | 0 <= j < |w'| - 1 ensures Edge(G, w'[j], w'[j + 1]) {
          assert Edge(G, w[j], w[j + 1]);
        }
      }
      WalkBound(G, tbl, w');
      var a, b := w[|w| - 2], w[|w| - 1];
      assert Edge(G, a, b);
      var i :| 0 <= i < |G[a]| && G[a][i] == b;
      assert Settled(G, tbl, a);
    }
  }

  /** Every marked coordinate is reached by a walk of exactly its distance. */
  lemma {:induction false} ShortestWalk(G: seq<seq<int>>, tbl: seq<Byte>, t: int) returns (w: seq<int>)
    requires IsGraph(G) && |tbl| == |G| > 0 && tbl[0] == 0 && Exact(G, tbl) && Labelled(tbl, t)
    ensures IsWalk(G, w) && w[|w| - 1] == t && |w| == tbl[t] as int + 1
    decreases tbl[t]
  {
    if t == 0 {
      w := [0];
    } else {
      assert HasParent(G, tbl, t);
      var p, i :| 0 <= p < |G| && 0 <= i < |G[p]| && G[p][i] == t &&
        tbl[p] != UNSEEN && tbl[p] as int + 1 == tbl[t] as int;
      assert 0 <= tbl[p];
      var w' := ShortestWalk(G, tbl, p);
      w := w' + [t];
      forall j | 0 <= j < |w| - 1 ensures Edge(G, w[j], w[j + 1]) {
        if j < |w'| - 1 {
          assert Edge(G, w'[j], w'[j + 1]);
        } else {
          assert w[j] == p && w[j + 1] == t;
        }
      }
    }
  }
}
