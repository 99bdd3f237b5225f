/**
 * Day 12 (Hill Climbing Algorithm): a height map of letters, `a` lowest and
 * `z` highest, with the start `S` at height `a` and the goal `E` at height
 * `z`.  A climber may step to a 4-neighbour at most one higher.  The
 * solution searches backwards from `E`: a step from `u` to `v` is allowed
 * when `v` is at most one lower than `u`, and Dijkstra's algorithm with unit
 * weights gives the fewest steps to every square.
 */
module HillClimbing {
  import opened Wrappers

  /** A square of the map, column `x` and row `y` (a complex number in the source). */
  datatype Point = Point(x: int, y: int)

  /** A distance: a number of steps, or `inf` for a square never reached. */
  datatype Dist = Fin(n: nat) | Inf

  /** `a < b`, with `inf` above every number and not below itself. */
  predicate Below(a: Dist, b: Dist)
  {
    match (a, b)
    case (Fin(m), Fin(n)) => m < n
    case (Fin(_), Inf) => true
    case (Inf, _) => false
  }

  predicate AtMost(a: Dist, b: Dist)
  {
    !Below(b, a)
  }

  /** `d + 1`, with `inf + 1 == inf`. */
  function Succ(d: Dist): Dist
  {
    match d
    case Fin(n) => Fin(n + 1)
    case Inf => Inf
  }

  type Graph = map<Point, seq<Point>>

  /** Every neighbour listed is itself a vertex. */
  predicate Closed(graph: Graph)
  {
    forall u, i :: u in graph && 0 <= i < |graph[u]| ==> graph[u][i] in graph
  }

  /** `points[u] - points[v] <= 1`: going back from `u`, `v` is at most one lower. */
  predicate Allowed(heights: map<Point, int>, u: Point, v: Point)
  {
    u in heights && v in heights && heights[u] - heights[v] <= 1
  }

  /** A backward step: `v` is listed next to `u` and is at most one lower. */
  predicate Step(graph: Graph, heights: map<Point, int>, u: Point, v: Point)
  {
    u in graph && v in graph[u] && Allowed(heights, u, v)
  }

  /** The squares reachable from `source` in at most `k` backward steps. */
  ghost function Within(graph: Graph, heights: map<Point, int>, source: Point, k: nat): set<Point>
    decreases k
  {
    if k == 0 then {source}
    else
      var w := Within(graph, heights, source, k - 1);
      w + set u, v | u in w && u in graph && v in graph[u] && Step(graph, heights, u, v) :: v
  }

  lemma WithinStep(graph: Graph, heights: map<Point, int>, source: Point, k: nat, u: Point, v: Point)
    requires u in Within(graph, heights, source, k) && Step(graph, heights, u, v)
    ensures v in Within(graph, heights, source, k + 1)
  {
  }

  /** Only vertices are reached, starting from a vertex of a closed graph. */
  lemma {:induction false} WithinGraph(graph: Graph, heights: map<Point, int>, source: Point, k: nat)
    requires source in graph && Closed(graph)
    ensures Within(graph, heights, source, k) <= graph.Keys
  {
    if k > 0 {
      WithinGraph(graph, heights, source, k - 1);
    }
  }

  /**
   * `d` is the fewest backward steps from `source` to any of `targets`:
   * no target is reached in fewer, and if `d` is finite some target is
   * reached in `d`.  For `inf`, no target is reachable at all.
   */
  ghost predicate FewestSteps(graph: Graph, heights: map<Point, int>, source: Point, targets: set<Point>, d: Dist)
  {
    (forall v, k: nat :: v in targets && v in Within(graph, heights, source, k) ==> d.Fin? && d.n <= k)
    && (d.Fin? ==> exists v :: v in targets && v in Within(graph, heights, source, d.n))
  }

  /** Every finite distance is backed by a way of reaching the square in that many steps. */
  ghost predicate Sound(graph: Graph, heights: map<Point, int>, source: Point, dist: map<Point, Dist>)
  {
    forall v :: v in dist && dist[v].Fin? ==> v in Within(graph, heights, source, dist[v].n)
  }

  /** No allowed step out of `u` could shorten a distance. */
  predicate RelaxedAt(graph: Graph, heights: map<Point, int>, dist: map<Point, Dist>, u: Point)
    requires u in graph && u in dist
  {
    forall i :: 0 <= i < |graph[u]| && graph[u][i] in dist && Allowed(heights, u, graph[u][i])
      ==> AtMost(dist[graph[u][i]], Succ(dist[u]))
  }

  /** Once every vertex is relaxed, a square reached in `k` steps has distance at most `k`. */
  lemma {:induction false} RelaxedBound(graph: Graph, heights: map<Point, int>, source: Point, dist: map<Point, Dist>, k: nat)
    requires source in graph && Closed(graph) && dist.Keys == graph.Keys && dist[source] == Fin(0)
    requires forall u :: u in graph ==> RelaxedAt(graph, heights, dist, u)
    ensures forall v :: v in Within(graph, heights, source, k) ==> v in dist && AtMost(dist[v], Fin(k))
  {
    WithinGraph(graph, heights, source, k);
    if k > 0 {
      RelaxedBound(graph, heights, source, dist, k - 1);
      var w := Within(graph, heights, source, k - 1);
      WithinGraph(graph, heights, source, k - 1);
      forall v | v in Within(graph, heights, source, k)
        ensures AtMost(dist[v], Fin(k))
      {
        if v !in w {
          var u :| u in w && u in graph && v in graph[u] && Step(graph, heights, u, v);
          var i :| 0 <= i < |graph[u]| && graph[u][i] == v;
          assert RelaxedAt(graph, heights, dist, u);
        }
      }
    }
  }

  /** Relaxed everywhere and sound: every distance is the fewest steps. */
  lemma Exact(graph: Graph, heights: map<Point, int>, source: Point, dist: map<Point, Dist>)
    requires source in graph && Closed(graph) && dist.Keys == graph.Keys && dist[source] == Fin(0)
    requires forall u :: u in graph ==> RelaxedAt(graph, heights, dist, u)
    requires Sound(graph, heights, source, dist)
    ensures forall v :: v in dist ==> FewestSteps(graph, heights, source, {v}, dist[v])
  {
    forall v, k: nat | v in dist && v in Within(graph, heights, source, k)
      ensures dist[v].Fin? && dist[v].n <= k
    {
      RelaxedBound(graph, heights, source, dist, k);
    }
  }

  predicate NoDuplicates(q: seq<Point>)
  {
    forall i, j :: 0 <= i < j < |q| ==> q[i] != q[j]
  }

  /** `list(graph.keys())`: the vertices in some order, each once. */
  method KeysOf(graph: Graph) returns (q: seq<Point>)
    ensures NoDuplicates(q)
    ensures forall p :: p in q <==> p in graph
  {
    q := [];
    var rest := graph.Keys;
    while rest != {}
      invariant NoDuplicates(q)
      invariant forall p :: p in q <==> p in graph && p !in rest
      invariant rest <= graph.Keys
      decreases |rest|
    {
      var p :| p in rest;
      q := q + [p];
      rest := rest - {p};
    }
  }

  /** `min(Q, key=dist.get)`: the first vertex of `q` with the smallest distance. */
  method ArgMin(q: seq<Point>, dist: map<Point, Dist>) returns (i: nat)
    requires q != [] && forall j :: 0 <= j < |q| ==> q[j] in dist
    ensures i < |q|
    ensures forall j :: 0 <= j < |q| ==> AtMost(dist[q[i]], dist[q[j]])
    ensures forall j :: 0 <= j < i ==> Below(dist[q[i]], dist[q[j]])
  {
    i := 0;
    for j := 1 to |q|
      invariant i < j
      invariant forall k :: 0 <= k < j ==> AtMost(dist[q[i]], dist[q[k]])
      invariant forall k :: 0 <= k < i ==> Below(dist[q[i]], dist[q[k]])
    {
      if Below(dist[q[j]], dist[q[i]]) {
        i := j;
      }
    }
  }

  /** Distances that only went down keep a relaxed vertex relaxed, if its own did not move. */
  lemma RelaxedKept(graph: Graph, heights: map<Point, int>, dist: map<Point, Dist>, next: map<Point, Dist>, s: Point)
    requires s in graph && dist.Keys == graph.Keys && next.Keys == graph.Keys
    requires RelaxedAt(graph, heights, dist, s) && next[s] == dist[s]
    requires forall w :: w in graph ==> AtMost(next[w], dist[w])
    ensures RelaxedAt(graph, heights, next, s)
  {
    forall i | 0 <= i < |graph[s]| && graph[s][i] in next && Allowed(heights, s, graph[s][i])
      ensures AtMost(next[graph[s][i]], Succ(next[s]))
    {
      var v := graph[s][i];
      assert AtMost(next[v], dist[v]);
    }
  }

  /**
   * The ghost certificate behind the distances: every finite distance other
   * than the source's is one more than that of a settled `parent` one
   * allowed step back.
   */
  ghost predicate Backed(graph: Graph, heights: map<Point, int>, source: Point, dist: map<Point, Dist>,
                         parent: map<Point, Point>, done: set<Point>)
  {
    forall v :: v in dist && dist[v].Fin? && v != source ==>
      v in parent && parent[v] in dist && parent[v] in done && Step(graph, heights, parent[v], v)
      && dist[parent[v]].Fin? && dist[v].n == dist[parent[v]].n + 1
  }

  /** A backed distance `n` is reached in `n` steps. */
  lemma {:induction false} BackedWithin(graph: Graph, heights: map<Point, int>, source: Point, dist: map<Point, Dist>,
                                        parent: map<Point, Point>, done: set<Point>, n: nat)
    requires source in dist && dist[source] == Fin(0) && Backed(graph, heights, source, dist, parent, done)
    ensures forall v :: v in dist && dist[v] == Fin(n) ==> v in Within(graph, heights, source, n)
  {
    if n > 0 {
      BackedWithin(graph, heights, source, dist, parent, done, n - 1);
      forall v | v in dist && dist[v] == Fin(n)
        ensures v in Within(graph, heights, source, n)
      {
        WithinStep(graph, heights, source, n - 1, parent[v], v);
      }
    }
  }

  lemma BackedSound(graph: Graph, heights: map<Point, int>, source: Point, dist: map<Point, Dist>,
                    parent: map<Point, Point>, done: set<Point>)
    requires source in dist && dist[source] == Fin(0) && Backed(graph, heights, source, dist, parent, done)
    ensures Sound(graph, heights, source, dist)
  {
    forall v | v in dist && dist[v].Fin?
      ensures v in Within(graph, heights, source, dist[v].n)
    {
      BackedWithin(graph, heights, source, dist, parent, done, dist[v].n);
    }
  }

  /**
   * What the relaxation of the steps out of `u` keeps, after its first `j`
   * edges, starting from the distances `dist`; `done` is the settled
   * vertices, `u` among them.
   */
  ghost predicate Relaxing(graph: Graph, heights: map<Point, int>, source: Point, dist: map<Point, Dist>,
                           next: map<Point, Dist>, parent: map<Point, Point>, u: Point, done: set<Point>, j: int)
    requires source in graph && Closed(graph)
    requires u in graph && dist.Keys == graph.Keys && 0 <= j <= |graph[u]|
  {
    && next.Keys == graph.Keys && next[source] == Fin(0)
    && Backed(graph, heights, source, next, parent, done)
    && (forall w :: w in graph ==> AtMost(next[w], dist[w]))
    && (forall w :: w in done ==> w in graph && next[w] == dist[w])
    && (forall w :: w in graph && w !in done ==> AtMost(next[u], next[w]))
    && (forall i :: 0 <= i < j && Allowed(heights, u, graph[u][i]) ==> AtMost(next[graph[u][i]], Succ(next[u])))
  }

  /** A distance at most `d` cannot be improved to `d + 1`. */
  lemma NoShortcut(x: Dist, d: Dist)
    requires AtMost(x, d)
    ensures !Below(Succ(d), x)
  {
  }

  /** Shortening the distance of an unsettled `v` to one more than that of the settled `u` keeps the certificate. */
  lemma BackedShorten(graph: Graph, heights: map<Point, int>, source: Point, next: map<Point, Dist>,
                      parent: map<Point, Point>, u: Point, v: Point, done: set<Point>)
    requires Backed(graph, heights, source, next, parent, done)
    requires u in done && u in next && next[u].Fin? && v in next && v !in done && v != source && Step(graph, heights, u, v)
    ensures Backed(graph, heights, source, next[v := Succ(next[u])], parent[v := u], done)
  {
    var after := next[v := Succ(next[u])];
    forall w | w in after && after[w].Fin? && w != source && w != v
      ensures parent[w] != v
    {
    }
  }

  /** The pass that shortens the distance of the `j`-th neighbour, recording `u` as its parent. */
  lemma RelaxShorten(graph: Graph, heights: map<Point, int>, source: Point, dist: map<Point, Dist>,
                     next: map<Point, Dist>, parent: map<Point, Point>, u: Point, done: set<Point>, j: int)
    requires source in graph && Closed(graph) && graph.Keys <= heights.Keys && dist.Keys == graph.Keys
    requires u in done && u in graph && forall s :: s in done ==> s in graph && AtMost(dist[s], dist[u])
    requires 0 <= j < |graph[u]| && Relaxing(graph, heights, source, dist, next, parent, u, done, j)
    requires Below(Succ(next[u]), next[graph[u][j]]) && heights[u] - heights[graph[u][j]] <= 1
    ensures Relaxing(graph, heights, source, dist, next[graph[u][j] := Succ(next[u])], parent[graph[u][j] := u], u, done, j + 1)
  {
    var v := graph[u][j];
    var alt := Succ(next[u]);
    var after := next[v := alt];
    forall s | s in done
      ensures !Below(alt, next[s])
    {
      NoShortcut(next[s], next[u]);
    }
    assert v !in done && v != source && after[u] == next[u];
    BackedShorten(graph, heights, source, next, parent, u, v, done);
    assert forall i :: 0 <= i < j + 1 && Allowed(heights, u, graph[u][i]) ==> AtMost(after[graph[u][i]], Succ(after[u])) by {
      forall i | 0 <= i < j + 1 && Allowed(heights, u, graph[u][i])
        ensures AtMost(after[graph[u][i]], Succ(after[u]))
      {
        if graph[u][i] != v {
          assert after[graph[u][i]] == next[graph[u][i]];
        }
      }
    }
  }

  /** The pass that leaves the distances as they are. */
  lemma RelaxKeep(graph: Graph, heights: map<Point, int>, source: Point, dist: map<Point, Dist>,
                  next: map<Point, Dist>, parent: map<Point, Point>, u: Point, done: set<Point>, j: int)
    requires source in graph && Closed(graph) && graph.Keys <= heights.Keys && dist.Keys == graph.Keys
    requires u in graph
    requires 0 <= j < |graph[u]| && Relaxing(graph, heights, source, dist, next, parent, u, done, j)
    requires !(Below(Succ(next[u]), next[graph[u][j]]) && heights[u] - heights[graph[u][j]] <= 1)
    ensures Relaxing(graph, heights, source, dist, next, parent, u, done, j + 1)
  {
  }

  /**
   * The body of the `for v in graph[u]` loop: relax every allowed step out
   * of the vertex `u` just settled.
   */
  method RelaxFrom(graph: Graph, heights: map<Point, int>, ghost source: Point, dist: map<Point, Dist>,
                   ghost parent: map<Point, Point>, u: Point, ghost done: set<Point>)
    returns (next: map<Point, Dist>, ghost parents: map<Point, Point>)
    requires source in graph && Closed(graph) && graph.Keys <= heights.Keys
    requires dist.Keys == graph.Keys && dist[source] == Fin(0) && Backed(graph, heights, source, dist, parent, done)
    requires u in done && u in graph && forall s :: s in done ==> s in graph && AtMost(dist[s], dist[u])
    requires forall w :: w in graph && w !in done ==> AtMost(dist[u], dist[w])
    ensures Relaxing(graph, heights, source, dist, next, parents, u, done, |graph[u]|)
  {
    next, parents := dist, parent;
    var edges := graph[u];
    for j := 0 to |edges|
      invariant Relaxing(graph, heights, source, dist, next, parents, u, done, j)
    {
      var v := edges[j];
      var alt := Succ(next[u]);
      if Below(alt, next[v]) && heights[u] - heights[v] <= 1 {
        RelaxShorten(graph, heights, source, dist, next, parents, u, done, j);
        next := next[v := alt];
        parents := parents[v := u];
      } else {
        RelaxKeep(graph, heights, source, dist, next, parents, u, done, j);
      }
    }
  }

  /** What the main loop keeps: `done` holds the settled vertices, all relaxed and none farther than a vertex still in `Q`. */
  ghost predicate Settling(graph: Graph, heights: map<Point, int>, source: Point, dist: map<Point, Dist>,
                           parent: map<Point, Point>, done: set<Point>)
    requires source in graph && Closed(graph)
  {
    && dist.Keys == graph.Keys && dist[source] == Fin(0) && done <= graph.Keys
    && Backed(graph, heights, source, dist, parent, done)
    && (forall s :: s in done ==> RelaxedAt(graph, heights, dist, s))
    && (forall s, w :: s in done && w in graph && w !in done ==> AtMost(dist[s], dist[w]))
  }

  /** Settling the nearest unsettled vertex `u` and relaxing its steps keeps `Settling`. */
  lemma SettleStep(graph: Graph, heights: map<Point, int>, source: Point, dist: map<Point, Dist>,
                   parent: map<Point, Point>, done: set<Point>, u: Point, next: map<Point, Dist>, parents: map<Point, Point>)
    requires source in graph && Closed(graph) && graph.Keys <= heights.Keys
    requires Settling(graph, heights, source, dist, parent, done)
    requires u in graph && u !in done && forall w :: w in graph && w !in done ==> AtMost(dist[u], dist[w])
    requires Relaxing(graph, heights, source, dist, next, parents, u, done + {u}, |graph[u]|)
    ensures Settling(graph, heights, source, next, parents, done + {u})
  {
    assert RelaxedAt(graph, heights, next, u);
    forall s | s in done
      ensures RelaxedAt(graph, heights, next, s)
    {
      RelaxedKept(graph, heights, dist, next, s);
    }
  }

  /** Taking the `m`-th vertex out of the queue settles it and keeps every other vertex queued once. */
  lemma Dequeue(graph: Graph, dist: map<Point, Dist>, q: seq<Point>, done: set<Point>, m: nat)
    requires NoDuplicates(q) && forall p :: p in q <==> p in graph && p !in done
    requires m < |q| && dist.Keys == graph.Keys
    requires forall j :: 0 <= j < |q| ==> AtMost(dist[q[m]], dist[q[j]])
    ensures q[m] in graph && q[m] !in done
    ensures forall w :: w in graph && w !in done ==> AtMost(dist[q[m]], dist[w])
    ensures NoDuplicates(q[..m] + q[m + 1..])
    ensures forall p :: p in q[..m] + q[m + 1..] <==> p in graph && p !in done + {q[m]}
  {
    var rest := q[..m] + q[m + 1..];
    assert forall i :: 0 <= i < |rest| ==> rest[i] == if i < m then q[i] else q[i + 1];
    forall w | w in graph && w !in done
      ensures AtMost(dist[q[m]], dist[w])
    {
      var j :| 0 <= j < |q| && q[j] == w;
    }
    forall p
      ensures p in rest <==> p in graph && p !in done + {q[m]}
    {
      if p in rest {
        var i :| 0 <= i < |rest| && rest[i] == p;
      }
    }
  }

  /**
   * `dijkstra`: every vertex starts unreached except `source` at 0; the
   * nearest unsettled vertex is taken out of `Q` and each allowed step out
   * of it shortens its neighbour's distance when it can.  Each vertex is
   * taken out exactly once.
   */
  method Dijkstra(graph: Graph, heights: map<Point, int>, source: Point) returns (dist: map<Point, Dist>, ghost rounds: nat)
    requires source in graph && Closed(graph) && graph.Keys <= heights.Keys
    ensures dist.Keys == graph.Keys
    ensures forall v :: v in dist ==> FewestSteps(graph, heights, source, {v}, dist[v])
    ensures rounds == |graph|
  {
    rounds := 0;
    var q := KeysOf(graph);
    dist := map v | v in graph :: Inf;
    dist := dist[source := Fin(0)];
    ghost var parent: map<Point, Point> := map[];
    ghost var done: set<Point> := {};
    while q != []
      invariant NoDuplicates(q) && forall p :: p in q <==> p in graph && p !in done
      invariant Settling(graph, heights, source, dist, parent, done)
      invariant rounds == |done|
      decreases |q|
    {
      var m := ArgMin(q, dist);
      var u := q[m];
      Dequeue(graph, dist, q, done, m);
      q := q[..m] + q[m + 1..];
      var next;
      ghost var parents;
      next, parents := RelaxFrom(graph, heights, source, dist, parent, u, done + {u});
      SettleStep(graph, heights, source, dist, parent, done, u, next, parents);
      dist, parent := next, parents;
      done, rounds := done + {u}, rounds + 1;
    }
    assert done == graph.Keys;
    BackedSound(graph, heights, source, dist, parent, done);
    Exact(graph, heights, source, dist);
  }

  /** A letter of the map: a height `a`..`z`, the start `S` or the goal `E`. */
  predicate Letter(c: char)
  {
    c == 'S' || c == 'E' || 'a' <= c <= 'z'
  }

  /** The height of a letter: `S` counts as `a`, `E` as `z`, others their place in the alphabet. */
  function Height(c: char): (h: int)
    requires Letter(c)
    ensures 0 <= h <= 25
  {
    if c == 'S' then 0
    else if c == 'a' then 0
    else if c == 'E' then 25
    else c as int - 'a' as int
  }

  /** Heights rise with the alphabet, and the marks sit at its ends. */
  lemma HeightOrder(c: char, d: char)
    requires 'a' <= c <= 'z' && 'a' <= d <= 'z'
    ensures Height(c) < Height(d) <==> c < d
    ensures Height('S') == Height('a') && Height('E') == Height('z')
  {
  }

  /** `(x, y)` is a square of the map: row `y` has a letter at column `x`. */
  predicate Cell(lines: seq<string>, p: Point)
  {
    0 <= p.y < |lines| && 0 <= p.x < |lines[p.y]|
  }

  function At(lines: seq<string>, p: Point): char
    requires Cell(lines, p)
  {
    lines[p.y][p.x]
  }

  /** Every square holds a letter of the map. */
  ghost predicate Letters(lines: seq<string>)
  {
    forall p :: Cell(lines, p) ==> Letter(At(lines, p))
  }

  /** `p` comes before `q` in reading order, row by row. */
  predicate Earlier(p: Point, q: Point)
  {
    p.y < q.y || (p.y == q.y && p.x < q.x)
  }

  /** The squares visited before the scan reaches column `x` of row `y`. */
  predicate Scanned(lines: seq<string>, p: Point, y: int, x: int)
  {
    Cell(lines, p) && Earlier(p, Point(x, y))
  }

  /** A start for part two: `S` or `a`. */
  predicate Low(c: char)
  {
    c == 'S' || c == 'a'
  }

  /** `m` is the last square marked `c` among those scanned, or `None` when there is none. */
  ghost predicate LastMarkBefore(lines: seq<string>, c: char, m: Option<Point>, y: int, x: int)
  {
    && (m.None? ==> forall p :: Scanned(lines, p, y, x) ==> At(lines, p) != c)
    && (m.Some? ==> Scanned(lines, m.value, y, x) && At(lines, m.value) == c
                    && forall p :: Scanned(lines, p, y, x) && At(lines, p) == c ==> !Earlier(m.value, p))
  }

  /** `m` is the last square of the whole map marked `c`, or `None` when there is none. */
  ghost predicate LastMark(lines: seq<string>, c: char, m: Option<Point>)
  {
    LastMarkBefore(lines, c, m, |lines|, 0)
  }

  /** What the scan has built once it reaches column `x` of row `y`. */
  ghost predicate ScannedTo(lines: seq<string>, points: map<Point, int>, start: Option<Point>, starts: seq<Point>,
                            end: Option<Point>, y: int, x: int)
    requires Letters(lines)
  {
    && (forall p :: p in points <==> Scanned(lines, p, y, x))
    && (forall p :: p in points ==> points[p] == Height(At(lines, p)))
    && (forall p :: p in starts <==> Scanned(lines, p, y, x) && Low(At(lines, p)))
    && (forall i, j :: 0 <= i < j < |starts| ==> Earlier(starts[i], starts[j]))
    && (forall i :: 0 <= i < |starts| ==> Earlier(starts[i], Point(x, y)))
    && LastMarkBefore(lines, 'S', start, y, x) && LastMarkBefore(lines, 'E', end, y, x)
  }

  /** Square `(x, y)` is the one scanned next. */
  lemma ScannedNext(lines: seq<string>, y: int, x: int)
    requires Cell(lines, Point(x, y))
    ensures forall p :: Scanned(lines, p, y, x + 1) <==> Scanned(lines, p, y, x) || p == Point(x, y)
  {
    forall p
      ensures Scanned(lines, p, y, x + 1) <==> Scanned(lines, p, y, x) || p == Point(x, y)
    {
    }
  }

  /** Scanning square `(x, y)` records its height. */
  lemma PointsStep(lines: seq<string>, points: map<Point, int>, y: int, x: int)
    requires Letters(lines) && Cell(lines, Point(x, y))
    requires forall p :: p in points <==> Scanned(lines, p, y, x)
    requires forall p :: p in points ==> Cell(lines, p) && points[p] == Height(At(lines, p))
    ensures var next := points[Point(x, y) := Height(At(lines, Point(x, y)))];
      && (forall p :: p in next <==> Scanned(lines, p, y, x + 1))
      && (forall p :: p in next ==> next[p] == Height(At(lines, p)))
  {
    ScannedNext(lines, y, x);
  }

  /** Scanning square `(x, y)` moves the last mark `c` there when the square holds it. */
  lemma MarkStep(lines: seq<string>, c: char, m: Option<Point>, y: int, x: int)
    requires Cell(lines, Point(x, y)) && LastMarkBefore(lines, c, m, y, x)
    ensures LastMarkBefore(lines, c, if At(lines, Point(x, y)) == c then Some(Point(x, y)) else m, y, x + 1)
  {
    ScannedNext(lines, y, x);
  }

  /** Scanning square `(x, y)` appends it to the starts when it is low. */
  lemma StartsStep(lines: seq<string>, starts: seq<Point>, y: int, x: int)
    requires Cell(lines, Point(x, y))
    requires forall p :: p in starts <==> Scanned(lines, p, y, x) && Low(At(lines, p))
    requires forall i, j :: 0 <= i < j < |starts| ==> Earlier(starts[i], starts[j])
    requires forall i :: 0 <= i < |starts| ==> Earlier(starts[i], Point(x, y))
    ensures var next := if Low(At(lines, Point(x, y))) then starts + [Point(x, y)] else starts;
      && (forall p :: p in next <==> Scanned(lines, p, y, x + 1) && Low(At(lines, p)))
      && (forall i, j :: 0 <= i < j < |next| ==> Earlier(next[i], next[j]))
      && (forall i :: 0 <= i < |next| ==> Earlier(next[i], Point(x + 1, y)))
  {
    ScannedNext(lines, y, x);
  }

  /** Scanning square `(x, y)` records its height and, by its letter, the marks and starts. */
  lemma ScanStep(lines: seq<string>, points: map<Point, int>, start: Option<Point>, starts: seq<Point>,
                 end: Option<Point>, y: int, x: int)
    requires Letters(lines) && 0 <= y < |lines| && 0 <= x < |lines[y]| && Letter(lines[y][x])
    requires ScannedTo(lines, points, start, starts, end, y, x)
    ensures var point, letter := Point(x, y), lines[y][x];
      ScannedTo(lines, points[point := Height(letter)], if letter == 'S' then Some(point) else start,
                if Low(letter) then starts + [point] else starts, if letter == 'E' then Some(point) else end, y, x + 1)
  {
    var point := Point(x, y);
    assert Cell(lines, point) && At(lines, point) == lines[y][x];
    MarkStep(lines, 'S', start, y, x);
    MarkStep(lines, 'E', end, y, x);
    StartsStep(lines, starts, y, x);
    PointsStep(lines, points, y, x);
  }

  /** The end of row `y` is the start of row `y + 1`. */
  lemma RowDone(lines: seq<string>, points: map<Point, int>, start: Option<Point>, starts: seq<Point>,
                end: Option<Point>, y: int)
    requires Letters(lines) && 0 <= y < |lines|
    requires ScannedTo(lines, points, start, starts, end, y, |lines[y]|)
    ensures ScannedTo(lines, points, start, starts, end, y + 1, 0)
  {
    assert forall p :: Scanned(lines, p, y, |lines[y]|) <==> Scanned(lines, p, y + 1, 0);
  }

  /** The body of the inner loop: square `(x, y)` and its letter. */
  method ScanSquare(lines: seq<string>, y: nat, x: nat, points: map<Point, int>, start: Option<Point>, starts: seq<Point>,
                    end: Option<Point>)
    returns (points': map<Point, int>, start': Option<Point>, starts': seq<Point>, end': Option<Point>)
    requires Letters(lines) && y < |lines| && x < |lines[y]|
    requires ScannedTo(lines, points, start, starts, end, y, x)
    ensures ScannedTo(lines, points', start', starts', end', y, x + 1)
  {
    var point := Point(x, y);
    var letter := lines[y][x];
    assert Letter(letter) by {
      assert Cell(lines, point);
    }
    ScanStep(lines, points, start, starts, end, y, x);
    start', starts', end' := start, starts, end;
    if letter == 'S' {
      start' := Some(point);
      starts' := starts' + [point];
    } else if letter == 'a' {
      starts' := starts' + [point];
    } else if letter == 'E' {
      end' := Some(point);
    }
    points' := points[point := Height(letter)];
  }

  /** The inner loop of the scan: the squares of row `y`, left to right. */
  method ScanRow(lines: seq<string>, y: nat, points: map<Point, int>, start: Option<Point>, starts: seq<Point>,
                 end: Option<Point>)
    returns (points': map<Point, int>, start': Option<Point>, starts': seq<Point>, end': Option<Point>)
    requires Letters(lines) && y < |lines|
    requires ScannedTo(lines, points, start, starts, end, y, 0)
    ensures ScannedTo(lines, points', start', starts', end', y + 1, 0)
  {
    points', start', starts', end' := points, start, starts, end;
    for x := 0 to |lines[y]|
      invariant ScannedTo(lines, points', start', starts', end', y, x)
    {
      points', start', starts', end' := ScanSquare(lines, y, x, points', start', starts', end');
    }
    RowDone(lines, points', start', starts', end', y);
  }

  /**
   * The scan that builds `points`: every square with its height, `start`
   * and `end` the last `S` and `E` seen, and `starts` every `S` or `a` in
   * reading order.
   */
  method BuildPoints(lines: seq<string>)
    returns (points: map<Point, int>, start: Option<Point>, starts: seq<Point>, end: Option<Point>)
    requires Letters(lines)
    ensures forall p :: p in points <==> Cell(lines, p)
    ensures forall p :: p in points ==> points[p] == Height(At(lines, p))
    ensures forall p :: p in starts <==> Cell(lines, p) && Low(At(lines, p))
    ensures forall i, j :: 0 <= i < j < |starts| ==> Earlier(starts[i], starts[j])
    ensures LastMark(lines, 'S', start) && LastMark(lines, 'E', end)
  {
    points, start, starts, end := map[], None, [], None;
    for y := 0 to |lines|
      invariant ScannedTo(lines, points, start, starts, end, y, 0)
    {
      points, start, starts, end := ScanRow(lines, y, points, start, starts, end);
    }
    assert forall p :: Scanned(lines, p, |lines|, 0) <==> Cell(lines, p);
  }

  /** The four offsets tried, in order: right, left, down, up. */
  const Offsets: seq<Point> := [Point(1, 0), Point(-1, 0), Point(0, 1), Point(0, -1)]

  function Add(p: Point, o: Point): Point
  {
    Point(p.x + o.x, p.y + o.y)
  }

  /** `p` and `q` are 4-neighbours. */
  predicate Adjacent(p: Point, q: Point)
  {
    (p.y == q.y && (q.x == p.x + 1 || q.x == p.x - 1)) || (p.x == q.x && (q.y == p.y + 1 || q.y == p.y - 1))
  }

  /** The neighbours of `p` found among the first `k` offsets, in the order tried. */
  function NeighboursUpTo(points: map<Point, int>, p: Point, k: nat): seq<Point>
    requires k <= |Offsets|
  {
    if k == 0 then []
    else NeighboursUpTo(points, p, k - 1) + if Add(p, Offsets[k - 1]) in points then [Add(p, Offsets[k - 1])] else []
  }

  function Neighbours(points: map<Point, int>, p: Point): seq<Point>
  {
    NeighboursUpTo(points, p, |Offsets|)
  }

  /** The first `k` offsets give exactly the squares of the map at those offsets, each once. */
  lemma {:induction false} NeighboursUpToIn(points: map<Point, int>, p: Point, k: nat)
    requires k <= |Offsets|
    ensures forall q :: q in NeighboursUpTo(points, p, k) <==> q in points && exists i :: 0 <= i < k && q == Add(p, Offsets[i])
    ensures NoDuplicates(NeighboursUpTo(points, p, k))
  {
    if k > 0 {
      NeighboursUpToIn(points, p, k - 1);
      var last := Add(p, Offsets[k - 1]);
      assert forall i :: 0 <= i < k - 1 ==> Add(p, Offsets[i]) != last;
    }
  }

  /** The neighbours listed for `p` are exactly its 4-neighbours on the map. */
  lemma NeighboursAdjacent(points: map<Point, int>, p: Point, q: Point)
    ensures q in Neighbours(points, p) <==> q in points && Adjacent(p, q)
  {
    NeighboursUpToIn(points, p, |Offsets|);
    if Adjacent(p, q) {
      if q.y == p.y && q.x == p.x + 1 {
        assert q == Add(p, Offsets[0]);
      } else if q.y == p.y {
        assert q == Add(p, Offsets[1]);
      } else if q.y == p.y + 1 {
        assert q == Add(p, Offsets[2]);
      } else {
        assert q == Add(p, Offsets[3]);
      }
    }
  }

  /** A square is a neighbour of each of its neighbours. */
  lemma NeighboursSymmetric(points: map<Point, int>, p: Point, q: Point)
    requires p in points && q in Neighbours(points, p)
    ensures p in Neighbours(points, q)
  {
    NeighboursAdjacent(points, p, q);
    NeighboursAdjacent(points, q, p);
  }

  /** No neighbour is listed twice. */
  lemma NeighboursOnce(points: map<Point, int>, p: Point)
    ensures NoDuplicates(Neighbours(points, p))
  {
    NeighboursUpToIn(points, p, |Offsets|);
  }

  /** The graph built from the map lists every neighbour as a vertex of its own. */
  lemma GraphClosed(points: map<Point, int>, graph: Graph)
    requires forall p :: p in graph <==> p in points && Neighbours(points, p) != []
    requires forall p :: p in graph ==> graph[p] == Neighbours(points, p)
    ensures Closed(graph)
  {
    forall u, i | u in graph && 0 <= i < |graph[u]|
      ensures graph[u][i] in graph
    {
      assert graph[u][i] in Neighbours(points, u);
      NeighboursAdjacent(points, u, graph[u][i]);
      NeighboursSymmetric(points, u, graph[u][i]);
    }
  }

  /**
   * On the graph built from the map, a backward step from `u` to `v` is
   * exactly a climb from `v` to its 4-neighbour `u` at most one higher.
   */
  lemma ClimbStep(points: map<Point, int>, graph: Graph, u: Point, v: Point)
    requires forall p :: p in graph <==> p in points && Neighbours(points, p) != []
    requires forall p :: p in graph ==> graph[p] == Neighbours(points, p)
    ensures Step(graph, points, u, v) <==> u in points && v in points && Adjacent(v, u) && points[u] <= points[v] + 1
  {
    NeighboursAdjacent(points, u, v);
  }

  /**
   * The `defaultdict(list)` of neighbours: a square gets an entry when its
   * first neighbour is appended, so squares with none are no vertices.
   */
  method BuildGraph(points: map<Point, int>) returns (graph: Graph)
    ensures forall p :: p in graph <==> p in points && Neighbours(points, p) != []
    ensures forall p :: p in graph ==> graph[p] == Neighbours(points, p)
    ensures Closed(graph)
  {
    graph := map[];
    var rest := points.Keys;
    while rest != {}
      invariant rest <= points.Keys
      invariant forall p :: p in graph <==> p in points && p !in rest && Neighbours(points, p) != []
      invariant forall p :: p in graph ==> graph[p] == Neighbours(points, p)
      decreases |rest|
    {
      var point :| point in rest;
      var found: seq<Point> := [];
      for k := 0 to |Offsets|
        invariant found == NeighboursUpTo(points, point, k)
      {
        var neighbour := Add(point, Offsets[k]);
        if neighbour in points {
          found := found + [neighbour];
        }
      }
      if found != [] {
        graph := graph[point := found];
      }
      rest := rest - {point};
    }
    GraphClosed(points, graph);
  }

  /** `min(paths[s] for s in starts)`: the first of the least distances. */
  method MinOver(starts: seq<Point>, dist: map<Point, Dist>) returns (best: Dist)
    requires starts != [] && forall i :: 0 <= i < |starts| ==> starts[i] in dist
    ensures exists i :: 0 <= i < |starts| && best == dist[starts[i]]
    ensures forall i :: 0 <= i < |starts| ==> AtMost(best, dist[starts[i]])
  {
    best := dist[starts[0]];
    ghost var at := 0;
    for i := 1 to |starts|
      invariant 0 <= at < i && best == dist[starts[at]]
      invariant forall j :: 0 <= j < i ==> AtMost(best, dist[starts[j]])
    {
      if Below(dist[starts[i]], best) {
        best, at := dist[starts[i]], i;
      }
    }
  }

  /** The least of the fewest steps to each start is the fewest steps to any of them. */
  lemma FewestOfAll(graph: Graph, heights: map<Point, int>, source: Point, starts: seq<Point>,
                    dist: map<Point, Dist>, best: Dist)
    requires forall i :: 0 <= i < |starts| ==> starts[i] in dist && FewestSteps(graph, heights, source, {starts[i]}, dist[starts[i]])
    requires exists i :: 0 <= i < |starts| && best == dist[starts[i]]
    requires forall i :: 0 <= i < |starts| ==> AtMost(best, dist[starts[i]])
    ensures FewestSteps(graph, heights, source, set i | 0 <= i < |starts| :: starts[i], best)
  {
    var at :| 0 <= at < |starts| && best == dist[starts[at]];
    assert FewestSteps(graph, heights, source, {starts[at]}, best);
    forall v, k: nat | v in (set i | 0 <= i < |starts| :: starts[i]) && v in Within(graph, heights, source, k)
      ensures best.Fin? && best.n <= k
    {
      var i :| 0 <= i < |starts| && starts[i] == v;
      assert FewestSteps(graph, heights, source, {starts[i]}, dist[starts[i]]);
    }
  }

  /** The squares a part-two trail may start from. */
  function LowSquares(lines: seq<string>): set<Point>
  {
    set y, x | 0 <= y < |lines| && 0 <= x < |lines[y]| && Low(lines[y][x]) :: Point(x, y)
  }

  /** A list holding exactly the low squares holds the set `LowSquares`. */
  lemma StartsAreLow(lines: seq<string>, starts: seq<Point>)
    requires forall p :: p in starts <==> Cell(lines, p) && Low(At(lines, p))
    ensures (set i | 0 <= i < |starts| :: starts[i]) == LowSquares(lines)
  {
    forall p | p in LowSquares(lines)
      ensures p in set i | 0 <= i < |starts| :: starts[i]
    {
      var y, x :| 0 <= y < |lines| && 0 <= x < |lines[y]| && Low(lines[y][x]) && p == Point(x, y);
      assert Cell(lines, p) && At(lines, p) == lines[y][x];
      var i :| 0 <= i < |starts| && starts[i] == p;
    }
    forall i | 0 <= i < |starts|
      ensures starts[i] in LowSquares(lines)
    {
      assert starts[i] in starts;
    }
  }

  /** `(x, y)` has a 4-neighbour on the map. */
  predicate HasNeighbour(lines: seq<string>, p: Point)
  {
    || Cell(lines, Point(p.x + 1, p.y)) || Cell(lines, Point(p.x - 1, p.y))
    || Cell(lines, Point(p.x, p.y + 1)) || Cell(lines, Point(p.x, p.y - 1))
  }

  /** A square with a neighbour on the map is a vertex of the graph. */
  lemma NeighbourListed(lines: seq<string>, points: map<Point, int>, p: Point)
    requires forall q :: q in points <==> Cell(lines, q)
    requires HasNeighbour(lines, p)
    ensures Neighbours(points, p) != []
  {
    var q :| q in [Point(p.x + 1, p.y), Point(p.x - 1, p.y), Point(p.x, p.y + 1), Point(p.x, p.y - 1)] && Cell(lines, q);
    NeighboursAdjacent(points, p, q);
  }

  /**
   * The whole solution: build the map and its graph, search backwards from
   * `E`, then read off the fewest steps from `S` (part one) and from any
   * `S` or `a` (part two).
   */
  method Solve(lines: seq<string>)
    returns (heights: map<Point, int>, graph: Graph, start: Point, end: Point, part1: Dist, part2: Dist)
    requires Letters(lines)
    requires exists p :: Cell(lines, p) && At(lines, p) == 'S'
    requires exists p :: Cell(lines, p) && At(lines, p) == 'E'
    requires forall p :: Cell(lines, p) && (Low(At(lines, p)) || At(lines, p) == 'E') ==> HasNeighbour(lines, p)
    ensures forall p :: p in heights <==> Cell(lines, p)
    ensures forall p :: p in heights ==> heights[p] == Height(At(lines, p))
    ensures forall p :: p in graph <==> p in heights && Neighbours(heights, p) != []
    ensures forall p :: p in graph ==> graph[p] == Neighbours(heights, p)
    ensures LastMark(lines, 'S', Some(start)) && LastMark(lines, 'E', Some(end))
    ensures FewestSteps(graph, heights, end, {start}, part1)
    ensures FewestSteps(graph, heights, end, LowSquares(lines), part2)
  {
    var s, starts, e;
    heights, s, starts, e := BuildPoints(lines);
    assert s.Some? && e.Some?;
    start, end := s.value, e.value;
    graph := BuildGraph(heights);
    NeighbourListed(lines, heights, end);
    var paths, _ := Dijkstra(graph, heights, end);
    NeighbourListed(lines, heights, start);
    part1 := paths[start];
    assert starts != [] by {
      assert start in starts;
    }
    forall i | 0 <= i < |starts|
      ensures starts[i] in paths
    {
      assert starts[i] in starts;
      NeighbourListed(lines, heights, starts[i]);
    }
    part2 := MinOver(starts, paths);
    FewestOfAll(graph, heights, end, starts, paths, part2);
    StartsAreLow(lines, starts);
  }
}
