/** `aStar` of NeonVectorBackground.js: A* search over the navigation graph
    with the Manhattan distance to the goal as heuristic, an open set kept in
    insertion order, and `cameFrom`, `gScore`, `fScore` maps. */
module NeonSearch {
  import opened Common
  import opened NavGraph

  /** A walk through the graph from `s` to `t` along edges. */
  ghost predicate ValidPath(g: Graph, p: seq<Point>, s: Point, t: Point) {
    && |p| >= 1 && p[0] == s && p[|p| - 1] == t
    && (forall i :: 0 <= i < |p| ==> p[i] in g.nodes)
    && (forall i :: 0 <= i < |p| - 1 ==> HasEdge(g, p[i], p[i + 1]))
  }

  /** What the search maps satisfy at every step:
      - the start has score 0 and no predecessor; every other scored node has one;
      - scores are non-negative and scored nodes are graph nodes;
      - each predecessor link follows an edge, and the predecessor's score is
        strictly smaller (so following the links back always ends, at the start);
      - every open node has a g and an f score. */
  ghost predicate Inv(g: Graph, start: Point, open: seq<Point>, cameFrom: map<Point, Point>,
                      gScore: map<Point, real>, fScore: map<Point, real>) {
    && start in gScore && gScore[start] == 0.0 && start !in cameFrom
    && (forall k :: k in gScore ==> gScore[k] >= 0.0 && k in g.neighbors)
    && Links(g, start, cameFrom, gScore)
    && (forall k :: k in open ==> k in gScore && k in fScore)
  }

  /** The predecessor links of `Inv`. */
  ghost predicate Links(g: Graph, start: Point, cameFrom: map<Point, Point>, gScore: map<Point, real>) {
    && (forall k :: k in gScore ==> k == start || k in cameFrom)
    && (forall k :: k in cameFrom ==>
          k in gScore && cameFrom[k] in gScore && HasEdge(g, cameFrom[k], k) && gScore[cameFrom[k]] < gScore[k])
  }

  /** `getLowestF()`: the first open node with the least f score. */
  method LowestF(open: seq<Point>, fScore: map<Point, real>) returns (best: Point)
    requires |open| > 0 && forall k :: k in open ==> k in fScore
    ensures best in open
    ensures forall k :: k in open ==> fScore[best] <= fScore[k]
    // the strict `<` keeps the earliest key on ties
    ensures exists i :: 0 <= i < |open| && open[i] == best && forall j :: 0 <= j < i ==> fScore[open[j]] > fScore[best]
  {
    best := open[0];
    var bestScore := fScore[best];
    ghost var bi := 0;
    for i := 1 to |open|
      invariant 0 <= bi < i && open[bi] == best && bestScore == fScore[best]
      invariant forall j :: 0 <= j < i ==> bestScore <= fScore[open[j]]
      invariant forall j :: 0 <= j < bi ==> fScore[open[j]] > bestScore
    {
      var fs := fScore[open[i]];
      if fs < bestScore {
        bestScore := fs;
        best := open[i];
        bi := i;
      }
    }
  }

  /** `open.delete(current)` on an insertion-ordered set. */
  function Remove(open: seq<Point>, k: Point): (r: seq<Point>)
    ensures forall x :: x in r <==> x in open && x != k
  {
    if |open| == 0 then []
    else if open[0] == k then Remove(open[1..], k)
    else [open[0]] + Remove(open[1..], k)
  }

  function Reverse<T>(s: seq<T>): (r: seq<T>)
    ensures |r| == |s| && forall i :: 0 <= i < |s| ==> r[i] == s[|s| - 1 - i]
  {
    if |s| == 0 then [] else Reverse(s[1..]) + [s[0]]
  }

  /** One successful relaxation: `nb` is reached from `current` along an edge
      with a score `t` above `current`'s and below any score `nb` had; it gets
      `current` as predecessor, the scores `t` and `t + h`, and joins the open
      set if it was not there. */
  lemma UpdateKeepsInv(g: Graph, start: Point, current: Point, nb: Point, t: real, h: real,
                       open: seq<Point>, cameFrom: map<Point, Point>, gScore: map<Point, real>, fScore: map<Point, real>,
                       open': seq<Point>, cameFrom': map<Point, Point>, gScore': map<Point, real>, fScore': map<Point, real>)
    requires Inv(g, start, open, cameFrom, gScore, fScore)
    requires current in gScore && HasEdge(g, current, nb) && nb in g.neighbors
    requires t > gScore[current] && (nb !in gScore || t < gScore[nb])
    requires cameFrom' == cameFrom[nb := current] && gScore' == gScore[nb := t] && fScore' == fScore[nb := t + h]
    requires open' == if nb in open then open else open + [nb]
    ensures Inv(g, start, open', cameFrom', gScore', fScore')
  {
    LinksAfterUpdate(g, start, current, nb, t, cameFrom, gScore);
  }

  /** The predecessor links survive pointing `nb` at `current` with score `t`:
      a node whose predecessor was `nb` had a score above `nb`'s old one, which
      `t` undercuts. */
  lemma LinksAfterUpdate(g: Graph, start: Point, current: Point, nb: Point, t: real,
                         cameFrom: map<Point, Point>, gScore: map<Point, real>)
    requires start in gScore && gScore[start] == 0.0 && start !in cameFrom
    requires forall k :: k in gScore ==> gScore[k] >= 0.0
    requires Links(g, start, cameFrom, gScore)
    requires current in gScore && HasEdge(g, current, nb)
    requires t > gScore[current] && (nb !in gScore || t < gScore[nb])
    ensures nb != start
    ensures Links(g, start, cameFrom[nb := current], gScore[nb := t])
  {
    var cameFrom', gScore' := cameFrom[nb := current], gScore[nb := t];
    forall k | k in cameFrom'
      ensures gScore'[cameFrom'[k]] < gScore'[k]
    {
      if k != nb && cameFrom[k] == nb {
        assert gScore[nb] < gScore[k];
      }
    }
  }

  /** One pass of the inner `for` loop of the search: the edge `e` out of
      `current` is taken when it reaches `e.key` for the first time or more
      cheaply than before. */
  method RelaxEdge(g: Graph, start: Point, goal: Point, current: Point, e: Edge,
                   open: seq<Point>, cameFrom: map<Point, Point>, gScore: map<Point, real>, fScore: map<Point, real>)
    returns (open': seq<Point>, cameFrom': map<Point, Point>, gScore': map<Point, real>, fScore': map<Point, real>)
    requires Inv(g, start, open, cameFrom, gScore, fScore)
    requires current in gScore && current in g.neighbors && e in g.neighbors[current]
    requires e.key in g.neighbors && e.cost > 0.0
    ensures Inv(g, start, open', cameFrom', gScore', fScore')
    ensures Improves(gScore, current, e) ==>
              && cameFrom' == cameFrom[e.key := current] && gScore' == gScore[e.key := gScore[current] + e.cost]
              && fScore' == fScore[e.key := gScore[current] + e.cost + Manhattan(e.key, goal)]
              && open' == (if e.key in open then open else open + [e.key])
    ensures !Improves(gScore, current, e) ==>
              open' == open && cameFrom' == cameFrom && gScore' == gScore && fScore' == fScore
    ensures current in gScore' && gScore'[current] == gScore[current]
    ensures e.key in gScore' && gScore'[e.key] <= gScore[current] + e.cost
    ensures NoWorse(gScore, gScore')
  {
    var tentativeG := gScore[current] + e.cost;
    if Improves(gScore, current, e) {
      assert HasEdge(g, current, e.key);
      cameFrom' := cameFrom[e.key := current];
      gScore' := gScore[e.key := tentativeG];
      fScore' := fScore[e.key := tentativeG + Manhattan(e.key, goal)];
      open' := if e.key in open then open else open + [e.key];
      UpdateKeepsInv(g, start, current, e.key, tentativeG, Manhattan(e.key, goal),
                     open, cameFrom, gScore, fScore, open', cameFrom', gScore', fScore');
    } else {
      open', cameFrom', gScore', fScore' := open, cameFrom, gScore, fScore;
    }
  }

  /** The edge `e` out of `current` reaches `e.key` for the first time, or
      more cheaply than its current score. */
  predicate Improves(gScore: map<Point, real>, current: Point, e: Edge)
    requires current in gScore
  {
    e.key !in gScore || gScore[current] + e.cost < gScore[e.key]
  }

  /** Relaxes every edge out of `current` (the inner `for` loop of the search). */
  method Relax(g: Graph, start: Point, goal: Point, current: Point,
               open: seq<Point>, cameFrom: map<Point, Point>, gScore: map<Point, real>, fScore: map<Point, real>)
    returns (open': seq<Point>, cameFrom': map<Point, Point>, gScore': map<Point, real>, fScore': map<Point, real>)
    requires Inv(g, start, open, cameFrom, gScore, fScore)
    requires current in gScore && OutEdges(g, current)
    ensures Inv(g, start, open', cameFrom', gScore', fScore')
    ensures current in g.neighbors
    ensures current in gScore' && gScore'[current] == gScore[current]
    ensures forall e :: e in g.neighbors[current] ==> e.key in gScore' && gScore'[e.key] <= gScore[current] + e.cost
    ensures NoWorse(gScore, gScore')
  {
    open', cameFrom', gScore', fScore' := open, cameFrom, gScore, fScore;
    var gCurrent := gScore[current];
    var edges := g.neighbors[current];
    for i := 0 to |edges|
      invariant Inv(g, start, open', cameFrom', gScore', fScore')
      invariant current in gScore' && gScore'[current] == gCurrent
      invariant Bounded(gScore', edges, i, gCurrent)
      invariant NoWorse(gScore, gScore')
    {
      assert edges[i] in g.neighbors[current];
      var o, c, gs, fs := RelaxEdge(g, start, goal, current, edges[i], open', cameFrom', gScore', fScore');
      BoundedKept(gScore', gs, edges, i, gCurrent);
      NoWorseTrans(gScore, gScore', gs);
      open', cameFrom', gScore', fScore' := o, c, gs, fs;
    }
    forall e | e in edges ensures e.key in gScore' && gScore'[e.key] <= gCurrent + e.cost {
      var j :| 0 <= j < |edges| && edges[j] == e;
      assert Bounded(gScore', edges, |edges|, gCurrent);
    }
  }

  /** Every edge out of `a` leads to a node of the graph and costs more than nothing. */
  ghost predicate OutEdges(g: Graph, a: Point) {
    a in g.neighbors && forall e :: e in g.neighbors[a] ==> e.key in g.neighbors && e.cost > 0.0
  }

  lemma WellFormedOutEdges(g: Graph, a: Point)
    requires WellFormed(g) && a in g.neighbors
    ensures OutEdges(g, a)
  {
  }

  /** The first i edges out of a node scored `gCurrent` reach neighbours
      scored no more than `gCurrent` plus the edge's cost. */
  ghost predicate Bounded(gs: map<Point, real>, edges: seq<Edge>, i: nat, gCurrent: real)
    requires i <= |edges|
  {
    forall j :: 0 <= j < i ==> edges[j].key in gs && gs[edges[j].key] <= gCurrent + edges[j].cost
  }

  /** Scores that only fall keep the bounds already reached, and the i-th
      edge's bound extends them. */
  lemma BoundedKept(gs: map<Point, real>, gs': map<Point, real>, edges: seq<Edge>, i: nat, gCurrent: real)
    requires i < |edges| && Bounded(gs, edges, i, gCurrent) && NoWorse(gs, gs')
    requires edges[i].key in gs' && gs'[edges[i].key] <= gCurrent + edges[i].cost
    ensures Bounded(gs', edges, i + 1, gCurrent)
  {
  }

  lemma NoWorseTrans(a: map<Point, real>, b: map<Point, real>, c: map<Point, real>)
    requires NoWorse(a, b) && NoWorse(b, c)
    ensures NoWorse(a, c)
  {
  }

  /** Every score `before` had is still there and has not gone up. */
  ghost predicate NoWorse(before: map<Point, real>, after: map<Point, real>) {
    forall k :: k in before ==> k in after && after[k] <= before[k]
  }

  /** `back` walks edges backwards with strictly falling scores. */
  ghost predicate Chain(g: Graph, gScore: map<Point, real>, back: seq<Point>) {
    && |back| >= 1
    && (forall i :: 0 <= i < |back| ==> back[i] in gScore)
    && (forall i :: 0 <= i < |back| - 1 ==> gScore[back[|back| - 1]] < gScore[back[i]])
    && (forall i :: 0 <= i < |back| - 1 ==> HasEdge(g, back[i + 1], back[i]))
  }

  lemma ExtendChain(g: Graph, gScore: map<Point, real>, back: seq<Point>, prev: Point)
    requires Chain(g, gScore, back) && prev in gScore
    requires HasEdge(g, prev, back[|back| - 1]) && gScore[prev] < gScore[back[|back| - 1]]
    ensures Chain(g, gScore, back + [prev])
    ensures prev !in back
  {
    var back' := back + [prev];
    forall i | 0 <= i < |back'| - 1
      ensures gScore[prev] < gScore[back'[i]] && HasEdge(g, back'[i + 1], back'[i])
    {
      if i < |back| - 1 {
        assert back'[i] == back[i] && back'[i + 1] == back[i + 1];
      } else {
        assert back'[i] == back[|back| - 1] && back'[i + 1] == prev;
      }
    }
  }

  /** The chain of predecessors from the goal back to the start. */
  method Backtrack(g: Graph, start: Point, goal: Point,
                   cameFrom: map<Point, Point>, gScore: map<Point, real>)
    returns (back: seq<Point>)
    requires Links(g, start, cameFrom, gScore) && goal in gScore
    ensures Chain(g, gScore, back) && back[0] == goal && back[|back| - 1] == start
    ensures goal !in cameFrom ==> back == [goal]
  {
    back := [goal];
    var c := goal;
    ghost var visited := {goal};
    while c in cameFrom
      invariant Chain(g, gScore, back) && back[0] == goal && back[|back| - 1] == c
      invariant forall v :: v in visited <==> v in back
      invariant visited <= gScore.Keys
      invariant goal !in cameFrom ==> back == [goal]
      decreases |gScore.Keys - visited|
    {
      var prev := cameFrom[c];
      ExtendChain(g, gScore, back, prev);
      assert gScore.Keys - (visited + {prev}) == (gScore.Keys - visited) - {prev};
      back := back + [prev];
      visited := visited + {prev};
      c := prev;
    }
  }

  /** Follows `cameFrom` back from the goal and reverses the result. */
  method Reconstruct(g: Graph, start: Point, goal: Point, open: seq<Point>,
                     cameFrom: map<Point, Point>, gScore: map<Point, real>, fScore: map<Point, real>)
    returns (path: seq<Point>)
    requires WellFormed(g) && Inv(g, start, open, cameFrom, gScore, fScore) && goal in gScore
    ensures ValidPath(g, path, start, goal)
    ensures goal !in cameFrom ==> path == [goal]
  {
    var back := Backtrack(g, start, goal, cameFrom, gScore);
    ReversedChainIsPath(g, gScore, back, start, goal);
    path := Reverse(back);
  }

  /** A chain read from its far end is a path along the graph's edges. */
  lemma ReversedChainIsPath(g: Graph, gScore: map<Point, real>, back: seq<Point>, start: Point, goal: Point)
    requires WellFormed(g) && (forall k :: k in gScore ==> k in g.neighbors)
    requires Chain(g, gScore, back) && back[0] == goal && back[|back| - 1] == start
    ensures ValidPath(g, Reverse(back), start, goal)
  {
    var path := Reverse(back);
    forall i | 0 <= i < |path| - 1 ensures HasEdge(g, path[i], path[i + 1]) {
      assert path[i] == back[|back| - 1 - i];
      assert path[i + 1] == back[|back| - 1 - i - 1];
    }
    forall i | 0 <= i < |path| ensures path[i] in g.nodes {
      assert path[i] == back[|back| - 1 - i];
      assert back[|back| - 1 - i] in gScore;
    }
  }

  /** `aStar(startKey, goalKey)`. The search loop runs at most `fuel` rounds;
      when the budget is spent the model answers None (see README, Left out). */
  method AStar(g: Graph, startKey: Option<Point>, goalKey: Option<Point>, fuel: nat)
    returns (path: Option<seq<Point>>)
    requires WellFormed(g)
    ensures (startKey.None? || goalKey.None? || startKey.value !in g.nodes || goalKey.value !in g.nodes) ==> path.None?
    ensures path.Some? ==> ValidPath(g, path.value, startKey.value, goalKey.value)
    ensures startKey.Some? && startKey == goalKey && startKey.value in g.nodes && fuel > 0 ==> path == Some([startKey.value])
  {
    if startKey.None? || goalKey.None? || startKey.value !in g.nodes || goalKey.value !in g.nodes {
      return None;
    }
    var start, goal := startKey.value, goalKey.value;
    var open := [start];
    var cameFrom: map<Point, Point> := map[];
    var gScore := map[start := 0.0];
    var fScore := map[start := Manhattan(start, goal)];
    var budget := fuel;
    while |open| > 0
      invariant Inv(g, start, open, cameFrom, gScore, fScore)
      invariant budget == fuel ==> open == [start] && cameFrom == map[]
      invariant start == goal ==> budget == fuel
      decreases budget
    {
      if budget == 0 { return None; }
      budget := budget - 1;
      var current := LowestF(open, fScore);
      if current == goal {
        var p := Reconstruct(g, start, goal, open, cameFrom, gScore, fScore);
        return Some(p);
      }
      open := Remove(open, current);
      WellFormedOutEdges(g, current);
      open, cameFrom, gScore, fScore := Relax(g, start, goal, current, open, cameFrom, gScore, fScore);
    }
    return None;
  }
}
