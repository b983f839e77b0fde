/** The order in which BFS takes vertices into its queue, and the parents it gives
    them. */
module BfsQueue {
  import opened Digraphs
  import opened ShortestPaths

  /** Vertex v was met from the i-th vertex of the queue, as its k-th neighbour. */
  datatype Meeting = Meeting(v: int, i: nat, k: nat)

  predicate Before(i: nat, k: nat, j: nat, l: nat) {
    i < j || (i == j && k < l)
  }

  predicate InRange(g: Adjacency, met: seq<Meeting>) {
    forall l :: 0 <= l < |met| ==> 1 <= met[l].v < |g|
  }

  /** Only vertices, each once, s first. */
  ghost predicate Listed(g: Adjacency, s: int, met: seq<Meeting>) {
    && met != [] && met[0] == Meeting(s, 0, 0) && InRange(g, met)
    && forall l, n :: 0 <= l < n < |met| ==> met[l].v != met[n].v
  }

  /** Entry l names the first place, in the order of the queue and of its vertices'
      lists, at which its vertex stands; the parent is the vertex there. */
  ghost predicate MetFirst(g: Adjacency, parent: seq<int>, met: seq<Meeting>, l: nat)
    requires |parent| == |g| && l < |met| && InRange(g, met)
  {
    && met[l].i < l && parent[met[l].v] == met[met[l].i].v
    && met[l].k < |g[met[met[l].i].v]| && g[met[met[l].i].v][met[l].k] == met[l].v
    && forall j, q :: 0 <= j < |met| && 0 <= q < |g[met[j].v]| && Before(j, q, met[l].i, met[l].k) ==>
         g[met[j].v][q] != met[l].v
  }

  /** Vertices enter the queue in the order in which they are met. */
  ghost predicate InTurn(met: seq<Meeting>) {
    forall l, n :: 1 <= l < n < |met| ==> Before(met[l].i, met[l].k, met[n].i, met[n].k)
  }

  /** met is the whole history of the queue of a search from s, with these parents. */
  ghost predicate History(g: Adjacency, s: int, parent: seq<int>, met: seq<Meeting>) {
    && |parent| == |g| && Listed(g, s, met) && InTurn(met)
    && forall l :: 1 <= l < |met| ==> MetFirst(g, parent, met, l)
  }

  ghost predicate Entered(met: seq<Meeting>, v: int) {
    exists l :: 0 <= l < |met| && met[l].v == v
  }

  /** All that a vertex of the history has an arc to is in it, too. */
  ghost predicate Closed(g: Adjacency, met: seq<Meeting>) {
    forall l, q :: 0 <= l < |met| && Vertex(g, met[l].v) && 0 <= q < |g[met[l].v]| ==> Entered(met, g[met[l].v][q])
  }

  /** Q is the end of the history, and nothing in it was met at a later place than the
      present one. */
  ghost predicate Tied(Q: seq<int>, k: nat, met: seq<Meeting>) {
    && |Q| <= |met|
    && (forall i :: 0 <= i < |Q| ==> Q[i] == met[|met| - |Q| + i].v)
    && forall l :: 1 <= l < |met| ==> Before(met[l].i, met[l].k, |met| - |Q|, k)
  }

  /** What is not white has entered the queue. */
  ghost predicate Accounted(g: Adjacency, color: seq<Color>, met: seq<Meeting>)
    requires |color| == |g|
  {
    forall v {:trigger color[v]} {:trigger Entered(met, v)} :: Vertex(g, v) ==> (color[v] != White <==> Entered(met, v))
  }

  ghost predicate Recorded(g: Adjacency, s: int, m: Marks, Q: seq<int>, k: nat, met: seq<Meeting>)
    requires Shaped(g, m)
  {
    History(g, s, m.parent, met) && Tied(Q, k, met) && Accounted(g, m.color, met)
  }

  /** The invariant of BFS, with the history. */
  ghost predicate Queueing(g: Adjacency, s: int, m: Marks, Q: seq<int>, k: nat, met: seq<Meeting>) {
    Searching(g, s, m, Q, k) && Recorded(g, s, m, Q, k, met)
  }

  lemma StartQueueing(g: Adjacency, s: int, m: Marks)
    requires Vertex(g, s) && Shaped(g, m)
    requires forall v :: Vertex(g, v) ==>
               && m.color[v] == (if v == s then Gray else White)
               && m.distance[v] == (if v == s then 0 else INF) && m.parent[v] == NIL
    ensures Queueing(g, s, m, [s], 0, [Meeting(s, 0, 0)])
  {
    StartSearching(g, s, m);
    assert Entered([Meeting(s, 0, 0)], s) by {
      assert [Meeting(s, 0, 0)][0].v == s;
    }
  }

  /** What has left the queue is black. */
  lemma GoneIsBlack(g: Adjacency, s: int, m: Marks, Q: seq<int>, k: nat, met: seq<Meeting>, j: nat)
    requires Queueing(g, s, m, Q, k, met) && j < |met| - |Q|
    ensures m.color[met[j].v] == Black
  {
    var x := met[j].v;
    forall i | 0 <= i < |Q| ensures Q[i] != x {
      assert Q[i] == met[|met| - |Q| + i].v;
    }
    assert Vertex(g, x) && x !in Q;
  }

  /** No white vertex stands at a place before the present one. */
  lemma BeforeIsMet(g: Adjacency, s: int, m: Marks, Q: seq<int>, k: nat, met: seq<Meeting>, j: nat, q: nat)
    requires Queueing(g, s, m, Q, k, met) && Q != []
    requires j < |met| && q < |g[met[j].v]| && Before(j, q, |met| - |Q|, k) && Vertex(g, g[met[j].v][q])
    ensures m.color[g[met[j].v][q]] != White
  {
    var x, y := met[j].v, g[met[j].v][q];
    if j < |met| - |Q| {
      GoneIsBlack(g, s, m, Q, k, met, j);
      assert Arc(g, x, y) && Met(m, m.distance[x], y);
    } else {
      assert Q[0] == met[|met| - |Q|].v;
      assert Met(m, m.distance[Q[0]], g[Q[0]][q]);
    }
  }

  lemma ListedGrows(g: Adjacency, s: int, met: seq<Meeting>, e: Meeting)
    requires Listed(g, s, met) && InTurn(met) && Vertex(g, e.v) && !Entered(met, e.v)
    requires forall l :: 1 <= l < |met| ==> Before(met[l].i, met[l].k, e.i, e.k)
    ensures Listed(g, s, met + [e]) && InTurn(met + [e])
  {
    var more := met + [e];
    assert forall l :: 0 <= l < |met| ==> more[l] == met[l] && met[l].v != e.v;
  }

  lemma MetFirstStays(g: Adjacency, parent: seq<int>, met: seq<Meeting>, l: nat, e: Meeting, p: int)
    requires |parent| == |g| && InRange(g, met) && Vertex(g, e.v) && !Entered(met, e.v)
    requires l < |met| && MetFirst(g, parent, met, l)
    ensures InRange(g, met + [e]) && MetFirst(g, parent[e.v := p], met + [e], l)
  {
    var more := met + [e];
    assert more[l] == met[l] && more[met[l].i] == met[met[l].i] && met[l].v != e.v;
    forall j, q | 0 <= j < |more| && 0 <= q < |g[more[j].v]| && Before(j, q, met[l].i, met[l].k)
      ensures g[more[j].v][q] != met[l].v
    {
      assert more[j] == met[j];
    }
  }

  /** e is the first place, in the order of the queue, at which its vertex stands. */
  ghost predicate FirstPlace(g: Adjacency, met: seq<Meeting>, e: Meeting)
    requires InRange(g, met)
  {
    && e.i < |met| && e.k < |g[met[e.i].v]| && g[met[e.i].v][e.k] == e.v
    && forall j, q :: 0 <= j < |met| && 0 <= q < |g[met[j].v]| && Before(j, q, e.i, e.k) ==> g[met[j].v][q] != e.v
  }

  lemma NewMetFirst(g: Adjacency, parent: seq<int>, met: seq<Meeting>, e: Meeting)
    requires |parent| == |g| && InRange(g, met) && Vertex(g, e.v) && FirstPlace(g, met, e)
    ensures InRange(g, met + [e]) && MetFirst(g, parent[e.v := met[e.i].v], met + [e], |met|)
  {
    var more := met + [e];
    assert more[|met|] == e && more[e.i] == met[e.i];
    forall j, q | 0 <= j < |more| && 0 <= q < |g[more[j].v]| && Before(j, q, e.i, e.k)
      ensures g[more[j].v][q] != e.v
    {
      assert more[j] == met[j];
    }
  }

  /** The history goes on with a new entry. */
  lemma HistoryGrows(g: Adjacency, s: int, parent: seq<int>, met: seq<Meeting>, e: Meeting)
    requires History(g, s, parent, met) && Vertex(g, e.v) && !Entered(met, e.v) && FirstPlace(g, met, e)
    requires forall l :: 1 <= l < |met| ==> Before(met[l].i, met[l].k, e.i, e.k)
    ensures History(g, s, parent[e.v := met[e.i].v], met + [e])
  {
    hide InTurn, MetFirst, Entered, FirstPlace;
    ListedGrows(g, s, met, e);
    NewMetFirst(g, parent, met, e);
    var more, parent' := met + [e], parent[e.v := met[e.i].v];
    forall l | 1 <= l < |met| ensures MetFirst(g, parent', more, l) {
      MetFirstStays(g, parent, met, l, e, met[e.i].v);
    }
  }

  lemma DiscoverHistory(g: Adjacency, s: int, m: Marks, Q: seq<int>, k: nat, met: seq<Meeting>, v: int)
    requires Queueing(g, s, m, Q, k, met) && Next(g, Q, k, v) && m.color[v] == White
    ensures Shaped(g, m) && History(g, s, Discover(m, Q[0], v).parent, met + [Meeting(v, |met| - |Q|, k)])
  {
    hide Searching, History;
    var h := |met| - |Q|;
    QueueingShape(g, s, m, Q, k, met);
    assert Q[0] == met[h].v;
    forall j, q | 0 <= j < |met| && 0 <= q < |g[met[j].v]| && Before(j, q, h, k) ensures g[met[j].v][q] != v {
      if Vertex(g, g[met[j].v][q]) {
        BeforeIsMet(g, s, m, Q, k, met, j, q);
      }
    }
    HistoryGrows(g, s, m.parent, met, Meeting(v, h, k));
  }

  lemma QueueingShape(g: Adjacency, s: int, m: Marks, Q: seq<int>, k: nat, met: seq<Meeting>)
    requires Queueing(g, s, m, Q, k, met)
    ensures Tree(g, s, m) && InRange(g, met) && InGraph(g, Q) && |Q| <= |met|
    ensures forall i :: 0 <= i < |Q| ==> m.color[Q[i]] == Gray
    ensures forall v :: Vertex(g, v) ==> (m.color[v] == White <==> m.distance[v] == INF)
    ensures forall v :: Entered(met, v) ==> Vertex(g, v) && m.color[v] != White
  {
    hide Levels, Explored, MetFirst, InTurn;
  }

  lemma EnteredGrows(met: seq<Meeting>, e: Meeting, v: int)
    ensures Entered(met + [e], v) <==> Entered(met, v) || v == e.v
  {
    var more := met + [e];
    assert more[|met|] == e;
    if l :| 0 <= l < |met| && met[l].v == v {
      assert more[l].v == v;
    }
  }

  lemma DiscoverQueueing(g: Adjacency, s: int, m: Marks, Q: seq<int>, k: nat, met: seq<Meeting>, v: int)
    requires Queueing(g, s, m, Q, k, met) && Next(g, Q, k, v) && m.color[v] == White
    ensures Queueing(g, s, Discover(m, Q[0], v), Q + [v], k + 1, met + [Meeting(v, |met| - |Q|, k)])
  {
    hide Searching, History, Accounted, Tied;
    TiedGrows(Q, k, met, v);
    DiscoverHistory(g, s, m, Q, k, met, v);
    DiscoverKeeps(g, s, m, Q, k, v);
    AccountedGrows(g, m.color, met, Meeting(v, |met| - |Q|, k));
  }

  lemma AccountedGrows(g: Adjacency, color: seq<Color>, met: seq<Meeting>, e: Meeting)
    requires |color| == |g| && Accounted(g, color, met) && Vertex(g, e.v)
    ensures Accounted(g, color[e.v := Gray], met + [e])
  {
    forall v | Vertex(g, v) ensures color[e.v := Gray][v] != White <==> Entered(met + [e], v) {
      EnteredGrows(met, e, v);
    }
  }

  lemma TiedGrows(Q: seq<int>, k: nat, met: seq<Meeting>, v: int)
    requires Tied(Q, k, met)
    ensures |Q| <= |met| && Tied(Q + [v], k + 1, met + [Meeting(v, |met| - |Q|, k)])
  {
    var h := |met| - |Q|;
    var more, R := met + [Meeting(v, h, k)], Q + [v];
    forall i | 0 <= i < |R| ensures R[i] == more[h + i].v {
      if i < |Q| {
        assert more[h + i] == met[h + i];
      }
    }
  }

  lemma SkipQueueing(g: Adjacency, s: int, m: Marks, Q: seq<int>, k: nat, met: seq<Meeting>, v: int)
    requires Queueing(g, s, m, Q, k, met) && Next(g, Q, k, v) && m.color[v] != White
    ensures Queueing(g, s, m, Q, k + 1, met)
  {
    hide Searching, History, Accounted, Next;
    SkipKeeps(g, s, m, Q, k, v);
  }

  lemma FinishQueueing(g: Adjacency, s: int, m: Marks, Q: seq<int>, met: seq<Meeting>)
    requires Q != [] && Vertex(g, Q[0]) && Queueing(g, s, m, Q, |g[Q[0]]|, met)
    ensures Queueing(g, s, Finish(m, Q[0]), Q[1..], 0, met)
  {
    hide Searching, History, Tied, Entered;
    QueueingShape(g, s, m, Q, |g[Q[0]]|, met);
    FinishKeeps(g, s, m, Q);
    FinishTied(Q, |g[Q[0]]|, met);
    assert Entered(met, Q[0]) by {
      InQueueEntered(Q, |g[Q[0]]|, met);
    }
  }

  lemma InQueueEntered(Q: seq<int>, k: nat, met: seq<Meeting>)
    requires Tied(Q, k, met) && Q != []
    ensures Entered(met, Q[0])
  {
    assert met[|met| - |Q|].v == Q[0];
  }

  lemma FinishTied(Q: seq<int>, k: nat, met: seq<Meeting>)
    requires Q != [] && Tied(Q, k, met)
    ensures Tied(Q[1..], 0, met)
  {
    assert forall i :: 0 <= i < |Q| - 1 ==> Q[1..][i] == Q[i + 1];
  }

  /** What the search ends with: the history is that of exactly the vertices within
      reach, and closed. */
  ghost predicate QueueOrder(g: Adjacency, s: int, m: Marks, met: seq<Meeting>) {
    && History(g, s, m.parent, met) && Closed(g, met)
    && |m.distance| == |g| && forall v :: Vertex(g, v) ==> (Entered(met, v) <==> m.distance[v] != INF)
  }

  lemma SearchIsInOrder(g: Adjacency, s: int, m: Marks, met: seq<Meeting>)
    requires WellFormed(g) && Queueing(g, s, m, [], 0, met)
    ensures QueueOrder(g, s, m, met)
  {
    forall v | Vertex(g, v) ensures Entered(met, v) <==> m.distance[v] != INF {
      assert m.color[v] == White <==> m.distance[v] == INF;
    }
    forall l, q | 0 <= l < |met| && Vertex(g, met[l].v) && 0 <= q < |g[met[l].v]|
      ensures Entered(met, g[met[l].v][q])
    {
      var x, y := met[l].v, g[met[l].v][q];
      HeadIsVertex(g, x, q);
      SearchIsOptimal(g, s, m);
      assert Arc(g, x, y) && m.color[x] == Black;
      assert Met(m, m.distance[x], y);
    }
  }

  /** A vertex has as parent the first one of the queue that has an arc to it. */
  lemma ParentIsEarliest(g: Adjacency, s: int, m: Marks, met: seq<Meeting>, v: int) returns (i: nat)
    requires QueueOrder(g, s, m, met) && Vertex(g, v) && v != s && m.distance[v] != INF
    ensures i < |met| && met[i].v == m.parent[v] && Arc(g, met[i].v, v)
    ensures forall j :: 0 <= j < i ==> !Arc(g, met[j].v, v)
  {
    hide InTurn, Closed;
    assert Entered(met, v);
    var l :| 0 <= l < |met| && met[l].v == v;
    assert MetFirst(g, m.parent, met, l);
    i := met[l].i;
    forall j | 0 <= j < i ensures !Arc(g, met[j].v, v) {
      assert forall q :: 0 <= q < |g[met[j].v]| ==> Before(j, q, i, met[l].k);
    }
  }

  // The history, and with it every parent, is determined by the graph

  /** Where two histories agree so far, the second one, too, has the next vertex of
      the first, and could have met it at the same place. */
  lemma NextIsThere(g: Adjacency, s: int, p: seq<int>, a: seq<Meeting>, r: seq<int>, b: seq<Meeting>, l: nat) returns (n: nat)
    requires History(g, s, p, a) && History(g, s, r, b) && Closed(g, b)
    requires 1 <= l < |a| && l <= |b| && a[..l] == b[..l]
    ensures l <= n < |b| && b[n].v == a[l].v
    ensures a[l].i < l && b[a[l].i].v == a[a[l].i].v && a[l].k < |g[b[a[l].i].v]| && g[b[a[l].i].v][a[l].k] == b[n].v
  {
    hide InTurn;
    forall j | 0 <= j < l ensures a[j] == b[j] {
      assert a[j] == a[..l][j] == b[..l][j];
    }
    assert MetFirst(g, p, a, l);
    assert Entered(b, g[b[a[l].i].v][a[l].k]);
    n :| 0 <= n < |b| && b[n].v == a[l].v;
  }

  lemma NotLater(g: Adjacency, s: int, r: seq<int>, b: seq<Meeting>, l: nat, n: nat, i: nat, k: nat)
    requires History(g, s, r, b) && 1 <= l <= n < |b|
    requires i < |b| && k < |g[b[i].v]| && g[b[i].v][k] == b[n].v
    ensures !Before(i, k, b[n].i, b[n].k) && !Before(b[n].i, b[n].k, b[l].i, b[l].k)
  {
    assert MetFirst(g, r, b, n);
    hide MetFirst;
    assert l < n ==> Before(b[l].i, b[l].k, b[n].i, b[n].k);
  }

  /** So neither goes on at a later place than the other. */
  lemma NextEntryNotLater(g: Adjacency, s: int, p: seq<int>, a: seq<Meeting>, r: seq<int>, b: seq<Meeting>, l: nat)
    requires History(g, s, p, a) && History(g, s, r, b) && Closed(g, b)
    requires 1 <= l < |a| && l <= |b| && a[..l] == b[..l]
    ensures l < |b| && !Before(a[l].i, a[l].k, b[l].i, b[l].k)
  {
    hide Closed, History;
    var n := NextIsThere(g, s, p, a, r, b, l);
    HistoryInRange(g, s, r, b);
    NotLater(g, s, r, b, l, n, a[l].i, a[l].k);
  }

  lemma HistoryInRange(g: Adjacency, s: int, r: seq<int>, b: seq<Meeting>)
    requires History(g, s, r, b)
    ensures InRange(g, b)
  {
  }

  lemma SameEntry(g: Adjacency, s: int, p: seq<int>, a: seq<Meeting>, r: seq<int>, b: seq<Meeting>, l: nat)
    requires History(g, s, p, a) && History(g, s, r, b) && Closed(g, a) && Closed(g, b)
    requires 1 <= l < |a| && l <= |b| && a[..l] == b[..l]
    ensures l < |b| && a[l].v == b[l].v && a[l].i == b[l].i && a[l].k == b[l].k
    ensures p[a[l].v] == r[a[l].v]
  {
    NextEntryNotLater(g, s, p, a, r, b, l);
    NextEntryNotLater(g, s, r, b, p, a, l);
    assert MetFirst(g, p, a, l) && MetFirst(g, r, b, l);
    var i := a[l].i;
    assert a[i] == a[..l][i] == b[..l][i] == b[i];
  }

  lemma {:induction false} SameHistory(g: Adjacency, s: int, p: seq<int>, a: seq<Meeting>, r: seq<int>, b: seq<Meeting>, l: nat)
    requires History(g, s, p, a) && History(g, s, r, b) && Closed(g, a) && Closed(g, b)
    requires 1 <= l <= |a|
    ensures l <= |b| && a[..l] == b[..l] && forall n :: 1 <= n < l ==> p[a[n].v] == r[a[n].v]
    decreases l
  {
    if l > 1 {
      SameHistory(g, s, p, a, r, b, l - 1);
      SameEntry(g, s, p, a, r, b, l - 1);
      assert a[..l] == a[..l - 1] + [a[l - 1]] && b[..l] == b[..l - 1] + [b[l - 1]];
    }
  }

  /** Two searches of one graph from one source take the same vertices in the same
      order and give them the same parents. */
  lemma ParentsAreDetermined(g: Adjacency, s: int, m: Marks, a: seq<Meeting>, m': Marks, b: seq<Meeting>)
    requires Tree(g, s, m) && Tree(g, s, m') && QueueOrder(g, s, m, a) && QueueOrder(g, s, m', b)
    ensures a == b && forall v :: Vertex(g, v) ==> m.parent[v] == m'.parent[v]
  {
    SameHistory(g, s, m.parent, a, m'.parent, b, |a|);
    SameHistory(g, s, m'.parent, b, m.parent, a, |b|);
    assert a == a[..|a|] == b[..|b|] == b;
    forall v | Vertex(g, v) ensures m.parent[v] == m'.parent[v] {
      assert ParentFits(g, s, m, v) && ParentFits(g, s, m', v);
      if Entered(a, v) && v != s {
        var l :| 0 <= l < |a| && a[l].v == v;
      }
    }
  }
}
