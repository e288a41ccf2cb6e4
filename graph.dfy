/**
 * The link graph: a directed graph over playlist ids whose edges are the
 * user's links (`from` is the head playlist, `to` the tail playlist).
 * Direct head/tail queries, breadth-first transitive heads/tails, Kahn's
 * topological sort and cycle detection defined as "the sort is shorter than
 * the node list".
 */
module LinkGraph {

  type NodeId = string

  datatype Edge = Edge(from: NodeId, to: NodeId)

  // ---------------------------------------------------------------------------
  // paths, reachability and cycles
  // ---------------------------------------------------------------------------

  predicate NoDup<T(==)>(s: seq<T>)
  {
    forall i, j :: 0 <= i < j < |s| ==> s[i] != s[j]
  }

  function Elems<T>(s: seq<T>): set<T>
  {
    set x | x in s
  }

  /** A walk of at least one edge: consecutive entries are joined by an edge. */
  ghost predicate IsPath(edges: seq<Edge>, p: seq<NodeId>)
  {
    |p| >= 2 && forall i :: 0 <= i < |p| - 1 ==> Edge(p[i], p[i + 1]) in edges
  }

  /** There is a non-empty path from `a` to `b`. */
  ghost predicate Reaches(edges: seq<Edge>, a: NodeId, b: NodeId)
  {
    exists p :: IsPath(edges, p) && p[0] == a && p[|p| - 1] == b
  }

  /** Some non-empty path returns to where it started. */
  ghost predicate HasCycle(edges: seq<Edge>)
  {
    exists p :: IsPath(edges, p) && p[0] == p[|p| - 1]
  }

  lemma EdgeReaches(edges: seq<Edge>, a: NodeId, b: NodeId)
    requires Edge(a, b) in edges
    ensures Reaches(edges, a, b)
  {
    assert IsPath(edges, [a, b]);
  }

  /** A path extended by one more edge at its end is still a path. */
  lemma ReachesThenEdge(edges: seq<Edge>, a: NodeId, b: NodeId, c: NodeId)
    requires Reaches(edges, a, b) && Edge(b, c) in edges
    ensures Reaches(edges, a, c)
  {
    var p :| IsPath(edges, p) && p[0] == a && p[|p| - 1] == b;
    var q := p + [c];
    assert IsPath(edges, q);
  }

  /** A path extended by one more edge at its start is still a path. */
  lemma EdgeThenReaches(edges: seq<Edge>, a: NodeId, b: NodeId, c: NodeId)
    requires Edge(a, b) in edges && Reaches(edges, b, c)
    ensures Reaches(edges, a, c)
  {
    var p :| IsPath(edges, p) && p[0] == b && p[|p| - 1] == c;
    var q := [a] + p;
    assert IsPath(edges, q);
  }

  lemma ReachesSelfIsCycle(edges: seq<Edge>, a: NodeId)
    requires Reaches(edges, a, a)
    ensures HasCycle(edges)
  {
  }

  // ---------------------------------------------------------------------------
  // filters over the edge list
  // ---------------------------------------------------------------------------

  /** `edges.filter(e => e.to === node)`: the incoming edges, in edge order. */
  function HeadEdgesOf(edges: seq<Edge>, node: NodeId): (r: seq<Edge>)
    ensures forall e :: e in r <==> e in edges && e.to == node
    ensures forall e :: multiset(r)[e] == if e.to == node then multiset(edges)[e] else 0
    ensures |r| <= |edges|
  {
    if edges == [] then []
    else
      var last := edges[|edges| - 1];
      assert edges == edges[..|edges| - 1] + [last];
      HeadEdgesOf(edges[..|edges| - 1], node) + if last.to == node then [last] else []
  }

  /** `edges.filter(e => e.from === node)`: the outgoing edges, in edge order. */
  function TailEdgesOf(edges: seq<Edge>, node: NodeId): (r: seq<Edge>)
    ensures forall e :: e in r <==> e in edges && e.from == node
    ensures forall e :: multiset(r)[e] == if e.from == node then multiset(edges)[e] else 0
    ensures |r| <= |edges|
  {
    if edges == [] then []
    else
      var last := edges[|edges| - 1];
      assert edges == edges[..|edges| - 1] + [last];
      TailEdgesOf(edges[..|edges| - 1], node) + if last.from == node then [last] else []
  }

  /** `.map(e => e.from)` */
  function Froms(es: seq<Edge>): (r: seq<NodeId>)
    ensures |r| == |es| && forall i :: 0 <= i < |es| ==> r[i] == es[i].from
  {
    if es == [] then [] else Froms(es[..|es| - 1]) + [es[|es| - 1].from]
  }

  /** `.map(e => e.to)` */
  function Tos(es: seq<Edge>): (r: seq<NodeId>)
    ensures |r| == |es| && forall i :: 0 <= i < |es| ==> r[i] == es[i].to
  {
    if es == [] then [] else Tos(es[..|es| - 1]) + [es[|es| - 1].to]
  }

  /**
   * `getDirectHeads`: the `from` of every edge into `node`, in edge order;
   * a head occurs as often as there are edges from it to `node`.
   */
  function HeadsOf(edges: seq<Edge>, node: NodeId): (r: seq<NodeId>)
    ensures forall u :: u in r <==> Edge(u, node) in edges
    ensures forall u :: multiset(r)[u] == multiset(edges)[Edge(u, node)]
    ensures |r| <= |edges|
  {
    if edges == [] then []
    else
      var last := edges[|edges| - 1];
      assert edges == edges[..|edges| - 1] + [last];
      HeadsOf(edges[..|edges| - 1], node) + if last.to == node then [last.from] else []
  }

  /**
   * `getDirectTails`: the `to` of every edge out of `node`, in edge order;
   * a tail occurs as often as there are edges from `node` to it.
   */
  function TailsOf(edges: seq<Edge>, node: NodeId): (r: seq<NodeId>)
    ensures forall v :: v in r <==> Edge(node, v) in edges
    ensures forall v :: multiset(r)[v] == multiset(edges)[Edge(node, v)]
    ensures |r| <= |edges|
  {
    if edges == [] then []
    else
      var last := edges[|edges| - 1];
      assert edges == edges[..|edges| - 1] + [last];
      TailsOf(edges[..|edges| - 1], node) + if last.from == node then [last.to] else []
  }

  /** The heads are the sources of the incoming edges (filter, then map). */
  lemma {:induction false} HeadsAreFromsOfHeadEdges(edges: seq<Edge>, node: NodeId)
    ensures HeadsOf(edges, node) == Froms(HeadEdgesOf(edges, node))
    decreases |edges|
  {
    if edges != [] {
      var init, last := edges[..|edges| - 1], edges[|edges| - 1];
      HeadsAreFromsOfHeadEdges(init, node);
      var es := HeadEdgesOf(init, node);
      if last.to == node {
        var es' := es + [last];
        assert HeadEdgesOf(edges, node) == es' && es'[..|es'| - 1] == es;
        assert Froms(es') == Froms(es) + [last.from];
      } else {
        assert HeadEdgesOf(edges, node) == es + [] == es;
        assert HeadsOf(edges, node) == HeadsOf(init, node) + [] == HeadsOf(init, node);
      }
    }
  }

  /** The tails are the targets of the outgoing edges (filter, then map). */
  lemma {:induction false} TailsAreTosOfTailEdges(edges: seq<Edge>, node: NodeId)
    ensures TailsOf(edges, node) == Tos(TailEdgesOf(edges, node))
    decreases |edges|
  {
    if edges != [] {
      var init, last := edges[..|edges| - 1], edges[|edges| - 1];
      TailsAreTosOfTailEdges(init, node);
      var es := TailEdgesOf(init, node);
      if last.from == node {
        var es' := es + [last];
        assert TailEdgesOf(edges, node) == es' && es'[..|es'| - 1] == es;
        assert Tos(es') == Tos(es) + [last.to];
      } else {
        assert TailEdgesOf(edges, node) == es + [] == es;
        assert TailsOf(edges, node) == TailsOf(init, node) + [] == TailsOf(init, node);
      }
    }
  }

  // ---------------------------------------------------------------------------
  // in-degree bookkeeping of Kahn's algorithm
  // ---------------------------------------------------------------------------

  /** The edges into `v` whose source has not been emitted yet (its current in-degree). */
  function Pending(edges: seq<Edge>, v: NodeId, done: set<NodeId>): nat
  {
    if edges == [] then 0
    else
      var last := edges[|edges| - 1];
      Pending(edges[..|edges| - 1], v, done) + if last.to == v && last.from !in done then 1 else 0
  }

  /** Emitting `n` lowers the in-degree of `v` by the number of edges `n -> v`. */
  lemma {:induction false} PendingStep(edges: seq<Edge>, v: NodeId, done: set<NodeId>, n: NodeId)
    requires n !in done
    ensures Pending(edges, v, done + {n}) + multiset(edges)[Edge(n, v)] == Pending(edges, v, done)
    decreases |edges|
  {
    if edges != [] {
      var last := edges[|edges| - 1];
      assert edges == edges[..|edges| - 1] + [last];
      PendingStep(edges[..|edges| - 1], v, done, n);
    }
  }

  /** No pending edge into `v`: every edge into `v` starts at an emitted node. */
  lemma {:induction false} PendingZero(edges: seq<Edge>, v: NodeId, done: set<NodeId>)
    requires Pending(edges, v, done) == 0
    ensures forall e :: e in edges && e.to == v ==> e.from in done
    decreases |edges|
  {
    if edges != [] {
      var last := edges[|edges| - 1];
      assert edges == edges[..|edges| - 1] + [last];
      PendingZero(edges[..|edges| - 1], v, done);
    }
  }

  /** A pending edge into `v` starts at a node that has not been emitted. */
  lemma {:induction false} PendingPositive(edges: seq<Edge>, v: NodeId, done: set<NodeId>)
    requires Pending(edges, v, done) > 0
    ensures exists e :: e in edges && e.to == v && e.from !in done
    decreases |edges|
  {
    var last := edges[|edges| - 1];
    assert edges == edges[..|edges| - 1] + [last];
    if !(last.to == v && last.from !in done) {
      PendingPositive(edges[..|edges| - 1], v, done);
    }
  }

  /** Every edge into `order[k]` starts at a node emitted before position `k`. */
  ghost predicate RespectsEdges(edges: seq<Edge>, order: seq<NodeId>)
  {
    forall k {:trigger HeadsEmittedBefore(edges, order, k)} :: 0 <= k < |order| ==> HeadsEmittedBefore(edges, order, k)
  }

  /** Every edge into `order[k]` starts at one of `order[..k]`. */
  ghost predicate HeadsEmittedBefore(edges: seq<Edge>, order: seq<NodeId>, k: nat)
    requires k < |order|
  {
    forall e :: e in edges && e.to == order[k] ==> e.from in order[..k]
  }

  /** Every node left out of `order` has an incoming edge from a node also left out. */
  ghost predicate Blocked(nodes: seq<NodeId>, edges: seq<Edge>, order: seq<NodeId>)
  {
    forall v {:trigger BlockedAt(edges, order, v)} :: v in nodes && v !in order ==> BlockedAt(edges, order, v)
  }

  /** `v` has an incoming edge from a node outside `order`. */
  ghost predicate BlockedAt(edges: seq<Edge>, order: seq<NodeId>, v: NodeId)
  {
    exists e :: e in edges && e.to == v && e.from !in order
  }

  // ---------------------------------------------------------------------------
  // from the order's shape to (a)cyclicity
  // ---------------------------------------------------------------------------

  lemma {:induction false} NoDupCard<T>(s: seq<T>)
    requires NoDup(s)
    ensures |Elems(s)| == |s|
    decreases |s|
  {
    if s != [] {
      var init := s[..|s| - 1];
      assert Elems(s) == Elems(init) + {s[|s| - 1]};
      assert s[|s| - 1] !in Elems(init);
      NoDupCard(init);
    }
  }

  lemma SubsetSameSize<T>(a: set<T>, b: set<T>)
    requires a <= b && |a| == |b|
    ensures a == b
  {
    assert b == a + (b - a);
  }

  /** The position of `x` in a duplicate-free sequence. */
  function IndexOf<T(==)>(s: seq<T>, x: T): (i: nat)
    requires x in s
    ensures i < |s| && s[i] == x
    ensures NoDup(s) ==> forall j :: 0 <= j < |s| && s[j] == x ==> j == i
  {
    if s[0] == x then 0 else 1 + IndexOf(s[1..], x)
  }

  /** Along a path, positions in an edge-respecting order strictly increase. */
  lemma {:induction false} PathClimbs(edges: seq<Edge>, order: seq<NodeId>, p: seq<NodeId>)
    requires NoDup(order) && RespectsEdges(edges, order)
    requires forall e :: e in edges ==> e.from in order && e.to in order
    requires IsPath(edges, p)
    ensures p[0] in order && p[|p| - 1] in order && IndexOf(order, p[0]) < IndexOf(order, p[|p| - 1])
    decreases |p|
  {
    var n := |p|;
    assert Edge(p[0], p[1]) in edges;
    var e := Edge(p[n - 2], p[n - 1]);
    assert e in edges;
    var k := IndexOf(order, e.to);
    assert HeadsEmittedBefore(edges, order, k);
    assert e.from in order[..k];
    if n > 2 {
      assert IsPath(edges, p[..n - 1]);
      PathClimbs(edges, order, p[..n - 1]);
    }
  }

  /** An order that respects every edge and lists every endpoint rules out cycles. */
  lemma FullOrderAcyclic(edges: seq<Edge>, order: seq<NodeId>)
    requires NoDup(order) && RespectsEdges(edges, order)
    requires forall e :: e in edges ==> e.from in order && e.to in order
    ensures !HasCycle(edges)
  {
    forall p | IsPath(edges, p)
      ensures p[0] != p[|p| - 1]
    {
      PathClimbs(edges, order, p);
    }
  }

  /** A duplicate-free edge-respecting order as long as the node list lists every node, so no cycle exists. */
  lemma FullLengthAcyclic(nodes: seq<NodeId>, edges: seq<Edge>, order: seq<NodeId>)
    requires NoDup(nodes) && NoDup(order) && |order| >= |nodes|
    requires forall v :: v in order ==> v in nodes
    requires forall e :: e in edges ==> e.from in nodes && e.to in nodes
    requires RespectsEdges(edges, order)
    ensures !HasCycle(edges)
  {
    NoDupCard(order);
    NoDupCard(nodes);
    SubsetCard(Elems(order), Elems(nodes));
    SubsetSameSize(Elems(order), Elems(nodes));
    assert forall x :: x in nodes ==> x in Elems(nodes);
    FullOrderAcyclic(edges, order);
  }

  /** Walking backwards along blocking edges for `n` steps, staying outside `order`. */
  lemma {:induction false} BackWalk(nodes: seq<NodeId>, edges: seq<Edge>, order: seq<NodeId>, v: NodeId, n: nat)
    returns (w: seq<NodeId>)
    requires forall e :: e in edges ==> e.from in nodes
    requires Blocked(nodes, edges, order)
    requires v in nodes && v !in order
    ensures |w| == n + 1 && w[n] == v
    ensures forall x :: x in w ==> x in nodes && x !in order
    ensures forall i :: 0 <= i < n ==> StepAt(edges, w, i)
    decreases n
  {
    if n == 0 {
      w := [v];
    } else {
      var rest := BackWalk(nodes, edges, order, v, n - 1);
      var head := rest[0];
      assert head in nodes && head !in order;
      assert BlockedAt(edges, order, head);
      var e :| e in edges && e.to == head && e.from !in order;
      w := [e.from] + rest;
      forall i | 0 <= i < n
        ensures StepAt(edges, w, i)
      {
        if i > 0 {
          assert StepAt(edges, rest, i - 1);
          assert w[i] == rest[i - 1] && w[i + 1] == rest[i];
        } else {
          assert Edge(w[0], w[1]) == e;
        }
      }
    }
  }

  /** A sequence longer than the set it draws from repeats an element. */
  lemma Pigeonhole<T>(w: seq<T>, universe: set<T>)
    requires forall x :: x in w ==> x in universe
    requires |w| > |universe|
    ensures !NoDup(w)
  {
    SubsetCard(Elems(w), universe);
    if NoDup(w) {
      NoDupCard(w);
    }
  }

  /** Step `i` of the walk `w` follows an edge. */
  ghost predicate StepAt(edges: seq<Edge>, w: seq<NodeId>, i: int)
  {
    0 <= i < |w| - 1 && Edge(w[i], w[i + 1]) in edges
  }

  /** A walk that visits some node twice contains a cycle. */
  lemma RepeatedWalkCycle(edges: seq<Edge>, w: seq<NodeId>)
    requires forall i :: 0 <= i < |w| - 1 ==> StepAt(edges, w, i)
    requires !NoDup(w)
    ensures HasCycle(edges)
  {
    var i, j :| 0 <= i < j < |w| && w[i] == w[j];
    var c := w[i..j + 1];
    forall k | 0 <= k < |c| - 1
      ensures Edge(c[k], c[k + 1]) in edges
    {
      assert StepAt(edges, w, i + k);
      assert c[k] == w[i + k] && c[k + 1] == w[i + k + 1];
    }
    assert IsPath(edges, c) && c[0] == c[|c| - 1];
  }

  /** If every left-out node is blocked by another left-out node, an acyclic graph leaves nothing out. */
  lemma BlockedAcyclicFull(nodes: seq<NodeId>, edges: seq<Edge>, order: seq<NodeId>)
    requires forall e :: e in edges ==> e.from in nodes
    requires Blocked(nodes, edges, order)
    requires !HasCycle(edges)
    ensures forall v :: v in nodes ==> v in order
  {
    forall v | v in nodes
      ensures v in order
    {
      if v !in order {
        var w := BackWalk(nodes, edges, order, v, |Elems(nodes)|);
        Pigeonhole(w, Elems(nodes));
        RepeatedWalkCycle(edges, w);
      }
    }
  }

  lemma SubsetCard<T>(a: set<T>, b: set<T>)
    requires a <= b
    ensures |a| <= |b|
  {
    assert b == a + (b - a);
  }

  /** The heads of an emitted node were all emitted. */
  lemma HeadsOfEmitted(edges: seq<Edge>, order: seq<NodeId>, v: NodeId)
    requires RespectsEdges(edges, order) && v in order
    ensures forall e :: e in edges && e.to == v ==> e.from in order
  {
    var k := IndexOf(order, v);
    assert HeadsEmittedBefore(edges, order, k);
  }

  /** Emitting a node not yet emitted: the emitted set grows by it and what is left shrinks. */
  lemma Emit(nodes: seq<NodeId>, order: seq<NodeId>, node: NodeId)
    requires NoDup(order) && node in nodes && node !in order
    ensures NoDup(order + [node])
    ensures Elems(order + [node]) - {node} == Elems(order) && node in Elems(order + [node])
    ensures Elems(nodes) - Elems(order + [node]) < Elems(nodes) - Elems(order)
  {
    var o := order + [node];
    assert o[..|order|] == order;
    assert Elems(o) == Elems(order) + {node};
    assert node in Elems(nodes) - Elems(order);
  }

  /**
   * Emitting a node whose in-degree reached 0 keeps the order edge-respecting,
   * and none of its tails has been emitted yet.
   */
  lemma EmitKeepsOrder(edges: seq<Edge>, order: seq<NodeId>, node: NodeId)
    requires RespectsEdges(edges, order) && node !in order
    requires Pending(edges, node, Elems(order)) == 0
    ensures RespectsEdges(edges, order + [node])
    ensures forall v :: v in TailsOf(edges, node) ==> v !in order + [node]
  {
    PendingZero(edges, node, Elems(order));
    var order' := order + [node];
    forall k | 0 <= k < |order'|
      ensures HeadsEmittedBefore(edges, order', k)
    {
      if k < |order| {
        assert order'[..k] == order[..k] && order'[k] == order[k];
        assert HeadsEmittedBefore(edges, order, k);
      } else {
        assert order'[..k] == order;
      }
    }
    forall v | v in order
      ensures Edge(node, v) !in edges
    {
      HeadsOfEmitted(edges, order, v);
    }
  }

  // ---------------------------------------------------------------------------
  // why the breadth-first search stops on an acyclic graph
  // ---------------------------------------------------------------------------

  function Pow(b: nat, k: nat): (r: nat)
    ensures b >= 1 ==> r >= 1
  {
    if k == 0 then 1 else b * Pow(b, k - 1)
  }

  lemma {:induction false} PowMonotone(b: nat, i: nat, k: nat)
    requires b >= 1 && i <= k
    ensures Pow(b, i) <= Pow(b, k)
    decreases k
  {
    if i < k {
      PowMonotone(b, i, k - 1);
      assert Pow(b, k) == b * Pow(b, k - 1) >= Pow(b, k - 1);
    }
  }

  /** The nodes with a non-empty path to `v` (each is the source of some edge). */
  ghost function Ancestors(edges: seq<Edge>, v: NodeId): set<NodeId>
  {
    set u | u in Froms(edges) && Reaches(edges, u, v)
  }

  /** On an acyclic graph a head has strictly fewer ancestors than the node it points to. */
  lemma AncestorsShrink(edges: seq<Edge>, h: NodeId, v: NodeId)
    requires !HasCycle(edges) && Edge(h, v) in edges
    ensures |Ancestors(edges, h)| < |Ancestors(edges, v)|
  {
    var a, b := Ancestors(edges, h), Ancestors(edges, v);
    AncestorsOfHead(edges, h, v);
    assert h !in a by {
      if h in a {
        ReachesSelfIsCycle(edges, h);
      }
    }
    StrictSubsetCard(a, b, h);
  }

  /** The ancestors of a head, and the head itself, are ancestors of the node it points to. */
  lemma AncestorsOfHead(edges: seq<Edge>, h: NodeId, v: NodeId)
    requires Edge(h, v) in edges
    ensures Ancestors(edges, h) <= Ancestors(edges, v) && h in Ancestors(edges, v)
  {
    forall u | u in Ancestors(edges, h)
      ensures u in Ancestors(edges, v)
    {
      ReachesThenEdge(edges, u, h, v);
    }
    var i :| 0 <= i < |edges| && edges[i] == Edge(h, v);
    assert Froms(edges)[i] == h;
    EdgeReaches(edges, h, v);
  }

  lemma StrictSubsetCard<T>(a: set<T>, b: set<T>, x: T)
    requires a <= b && x in b && x !in a
    ensures |a| < |b|
  {
    assert b == a + (b - a) && x in b - a;
  }

  /** Each node waiting in the queue weighs `(|edges| + 1)` to the power of its ancestor count. */
  ghost function Weight(edges: seq<Edge>, s: seq<NodeId>): nat
  {
    if s == [] then 0 else Pow(|edges| + 1, |Ancestors(edges, s[0])|) + Weight(edges, s[1..])
  }

  lemma {:induction false} WeightAppend(edges: seq<Edge>, a: seq<NodeId>, b: seq<NodeId>)
    ensures Weight(edges, a + b) == Weight(edges, a) + Weight(edges, b)
    decreases |a|
  {
    if a != [] {
      assert (a + b)[0] == a[0] && (a + b)[1..] == a[1..] + b;
      WeightAppend(edges, a[1..], b);
    } else {
      assert a + b == b;
    }
  }

  lemma {:induction false} WeightBound(edges: seq<Edge>, s: seq<NodeId>, bound: nat)
    requires forall x :: x in s ==> Pow(|edges| + 1, |Ancestors(edges, x)|) <= bound
    ensures Weight(edges, s) <= |s| * bound
    decreases |s|
  {
    if s != [] {
      WeightBound(edges, s[1..], bound);
      assert |s| * bound == bound + (|s| - 1) * bound;
    }
  }

  /** The heads queued while visiting `v` weigh less, together, than `v` itself. */
  lemma QueuedHeadsLighter(edges: seq<Edge>, v: NodeId, added: seq<NodeId>)
    requires !HasCycle(edges)
    requires forall x :: x in added ==> Edge(x, v) in edges
    requires |added| <= |edges|
    ensures Weight(edges, added) < Pow(|edges| + 1, |Ancestors(edges, v)|)
  {
    var b := |edges| + 1;
    var n := |Ancestors(edges, v)|;
    if added != [] {
      AncestorsShrink(edges, added[0], v);
      HeadsWeighLess(edges, v, added, b, n);
      WeightBound(edges, added, Pow(b, n - 1));
      BelowNextPower(Weight(edges, added), |added|, b, n);
    }
  }

  /** Replacing the first queued node by some of its heads lowers the weight of the queue. */
  lemma VisitLighter(edges: seq<Edge>, before: seq<NodeId>, added: seq<NodeId>)
    requires !HasCycle(edges) && |before| > 0
    requires forall x :: x in added ==> Edge(x, before[0]) in edges
    requires |added| <= |edges|
    ensures Weight(edges, before[1..] + added) < Weight(edges, before)
  {
    WeightAppend(edges, before[1..], added);
    QueuedHeadsLighter(edges, before[0], added);
  }

  /** The heads of a node on the way to `node` are on the way to `node` too. */
  lemma HeadsReach(edges: seq<Edge>, next: NodeId, node: NodeId)
    requires next == node || Reaches(edges, next, node)
    ensures forall x :: Edge(x, next) in edges ==> Reaches(edges, x, node)
  {
    forall x | Edge(x, next) in edges
      ensures Reaches(edges, x, node)
    {
      if next == node {
        EdgeReaches(edges, x, node);
      } else {
        EdgeThenReaches(edges, x, next, node);
      }
    }
  }

  /** Each head of `v` weighs at most `b` to the power `n - 1`, where `v` has `n` ancestors. */
  lemma HeadsWeighLess(edges: seq<Edge>, v: NodeId, added: seq<NodeId>, b: nat, n: nat)
    requires !HasCycle(edges) && b == |edges| + 1 && n == |Ancestors(edges, v)| && n >= 1
    requires forall x :: x in added ==> Edge(x, v) in edges
    ensures forall x :: x in added ==> Pow(b, |Ancestors(edges, x)|) <= Pow(b, n - 1)
  {
    forall x | x in added
      ensures Pow(b, |Ancestors(edges, x)|) <= Pow(b, n - 1)
    {
      HeadWeighsLess(edges, v, x, b, n);
    }
  }

  lemma HeadWeighsLess(edges: seq<Edge>, v: NodeId, x: NodeId, b: nat, n: nat)
    requires !HasCycle(edges) && b >= 1 && n == |Ancestors(edges, v)| && n >= 1 && Edge(x, v) in edges
    ensures Pow(b, |Ancestors(edges, x)|) <= Pow(b, n - 1)
  {
    AncestorsShrink(edges, x, v);
    PowMonotone(b, |Ancestors(edges, x)|, n - 1);
  }

  lemma BelowNextPower(w: nat, k: nat, b: nat, n: nat)
    requires n >= 1 && b >= 1 && w <= k * Pow(b, n - 1) && k < b
    ensures w < Pow(b, n)
  {
    var p := Pow(b, n - 1);
    assert Pow(b, n) == b * p;
    assert b * p == k * p + (b - k) * p;
  }

  /** Every node with a path into a visited node is a collected head (visited nodes are closed). */
  lemma {:induction false} ClosedUnderHeads(edges: seq<Edge>, visited: set<NodeId>, heads: seq<NodeId>, p: seq<NodeId>)
    requires forall v, u :: v in visited && Edge(u, v) in edges ==> u in heads
    requires forall x :: x in heads ==> x in visited
    requires IsPath(edges, p) && p[|p| - 1] in visited
    ensures p[0] in heads
    decreases |p|
  {
    var n := |p|;
    assert Edge(p[n - 2], p[n - 1]) in edges;
    if n > 2 {
      assert IsPath(edges, p[..n - 1]);
      ClosedUnderHeads(edges, visited, heads, p[..n - 1]);
    }
  }

  // ---------------------------------------------------------------------------
  // reversing every edge
  // ---------------------------------------------------------------------------

  function Reverse(edges: seq<Edge>): (r: seq<Edge>)
    ensures |r| == |edges|
    ensures forall a, b :: Edge(a, b) in r <==> Edge(b, a) in edges
  {
    if edges == [] then []
    else
      var last := edges[|edges| - 1];
      assert edges == edges[..|edges| - 1] + [last];
      Reverse(edges[..|edges| - 1]) + [Edge(last.to, last.from)]
  }

  function Backwards(p: seq<NodeId>): (r: seq<NodeId>)
    ensures |r| == |p| && forall i :: 0 <= i < |p| ==> r[i] == p[|p| - 1 - i]
  {
    if p == [] then [] else Backwards(p[1..]) + [p[0]]
  }

  lemma PathBackwards(edges: seq<Edge>, p: seq<NodeId>)
    requires IsPath(edges, p)
    ensures IsPath(Reverse(edges), Backwards(p))
  {
    var q := Backwards(p);
    forall i | 0 <= i < |q| - 1
      ensures Edge(q[i], q[i + 1]) in Reverse(edges)
    {
      assert Edge(p[|p| - 2 - i], p[|p| - 1 - i]) in edges;
    }
  }

  lemma PathForwards(edges: seq<Edge>, p: seq<NodeId>)
    requires IsPath(Reverse(edges), p)
    ensures IsPath(edges, Backwards(p))
  {
    var q := Backwards(p);
    forall i | 0 <= i < |q| - 1
      ensures Edge(q[i], q[i + 1]) in edges
    {
      assert Edge(p[|p| - 2 - i], p[|p| - 1 - i]) in Reverse(edges);
    }
  }

  /** A path in the reversed graph is a path of the original graph walked backwards. */
  lemma ReachesReverse(edges: seq<Edge>, a: NodeId, b: NodeId)
    ensures Reaches(Reverse(edges), a, b) <==> Reaches(edges, b, a)
  {
    if Reaches(Reverse(edges), a, b) {
      var p :| IsPath(Reverse(edges), p) && p[0] == a && p[|p| - 1] == b;
      PathForwards(edges, p);
      assert Backwards(p)[0] == b;
    }
    if Reaches(edges, b, a) {
      var p :| IsPath(edges, p) && p[0] == b && p[|p| - 1] == a;
      PathBackwards(edges, p);
      assert Backwards(p)[0] == a;
    }
  }

  lemma AcyclicReverse(edges: seq<Edge>)
    requires !HasCycle(edges)
    ensures !HasCycle(Reverse(edges))
  {
    forall p | IsPath(Reverse(edges), p)
      ensures p[0] != p[|p| - 1]
    {
      PathForwards(edges, p);
      assert Backwards(p)[0] == p[|p| - 1] && Backwards(p)[|p| - 1] == p[0];
    }
  }

  // ---------------------------------------------------------------------------
  // adding and removing edges
  // ---------------------------------------------------------------------------

  /** Paths of a graph remain paths of any graph with at least its edges. */
  lemma AcyclicSubgraph(small: seq<Edge>, big: seq<Edge>)
    requires forall e :: e in small ==> e in big
    requires !HasCycle(big)
    ensures !HasCycle(small)
  {
    forall p | IsPath(small, p)
      ensures p[0] != p[|p| - 1]
    {
      assert IsPath(big, p);
    }
  }

  lemma ReachesTrans(edges: seq<Edge>, a: NodeId, b: NodeId, c: NodeId)
    requires Reaches(edges, a, b) && Reaches(edges, b, c)
    ensures Reaches(edges, a, c)
  {
    var p :| IsPath(edges, p) && p[0] == a && p[|p| - 1] == b;
    var q :| IsPath(edges, q) && q[0] == b && q[|q| - 1] == c;
    var r := p + q[1..];
    forall i | 0 <= i < |r| - 1
      ensures Edge(r[i], r[i + 1]) in edges
    {
      if i < |p| - 1 {
        assert r[i] == p[i] && r[i + 1] == p[i + 1];
      } else {
        assert r[i] == q[i - |p| + 1] && r[i + 1] == q[i - |p| + 2];
      }
    }
    assert IsPath(edges, r);
  }

  /** `a` is `b` or has a non-empty path to it. */
  ghost predicate ReachesOrIs(edges: seq<Edge>, a: NodeId, b: NodeId)
  {
    a == b || Reaches(edges, a, b)
  }

  /**
   * A path of the graph extended by the edge `f -> t` either stays inside the
   * old graph or passes through `f` and then `t`.
   */
  lemma {:induction false} PathWithNewEdge(edges: seq<Edge>, f: NodeId, t: NodeId, p: seq<NodeId>)
    requires IsPath(edges + [Edge(f, t)], p)
    ensures Reaches(edges, p[0], p[|p| - 1]) || (ReachesOrIs(edges, p[0], f) && ReachesOrIs(edges, t, p[|p| - 1]))
    decreases |p|
  {
    var n := |p|;
    var y, x := p[n - 2], p[n - 1];
    assert Edge(y, x) in edges + [Edge(f, t)];
    if n == 2 {
      if Edge(y, x) in edges {
        EdgeReaches(edges, y, x);
      }
    } else {
      var q := p[..n - 1];
      assert IsPath(edges + [Edge(f, t)], q);
      PathWithNewEdge(edges, f, t, q);
      if Edge(y, x) in edges {
        if Reaches(edges, p[0], y) {
          ReachesThenEdge(edges, p[0], y, x);
        } else if t == y {
          EdgeReaches(edges, y, x);
        } else {
          ReachesThenEdge(edges, t, y, x);
        }
      } else {
        assert y == f && x == t;
      }
    }
  }

  /**
   * On an acyclic graph, adding the edge `f -> t` creates a cycle exactly when
   * it is a self-link or `t` already has a path to `f`.
   */
  lemma AddEdgeCycle(edges: seq<Edge>, f: NodeId, t: NodeId)
    requires !HasCycle(edges)
    ensures HasCycle(edges + [Edge(f, t)]) <==> f == t || Reaches(edges, t, f)
  {
    var big := edges + [Edge(f, t)];
    if HasCycle(big) {
      var p :| IsPath(big, p) && p[0] == p[|p| - 1];
      PathWithNewEdge(edges, f, t, p);
      if !Reaches(edges, p[0], p[0]) {
        if p[0] != f && t != p[0] {
          ReachesTrans(edges, t, p[0], f);
        }
      }
    }
    if f == t {
      assert IsPath(big, [f, t]);
    } else if Reaches(edges, t, f) {
      var p :| IsPath(edges, p) && p[0] == t && p[|p| - 1] == f;
      var c := p + [t];
      assert IsPath(big, c);
    }
  }

  // ---------------------------------------------------------------------------
  // the graph object
  // ---------------------------------------------------------------------------

  /**
   * `myGraph`: the constructor copies the node and edge lists, and no method
   * changes them afterwards (both are constants here).
   */
  class Graph {
    const nodes: seq<NodeId>
    const edges: seq<Edge>

    /** The lists the class assumes: no repeated node, every edge endpoint is a node. */
    ghost predicate Valid()
    {
      NoDup(nodes) && forall e :: e in edges ==> e.from in nodes && e.to in nodes
    }

    constructor(nodes: seq<NodeId>, edges: seq<Edge>)
      ensures this.nodes == nodes && this.edges == edges
    {
      this.nodes := nodes;
      this.edges := edges;
    }

    /**
     * The first two steps of `topoSort`: every node starts at in-degree 0, then
     * each edge adds one to its target. An absent entry stands for the `NaN`
     * that JavaScript produces when an edge ends outside `nodes`.
     */
    method InitialInDegrees() returns (inDegree: map<NodeId, int>)
      ensures inDegree.Keys == Elems(nodes)
      ensures forall v :: v in inDegree ==> inDegree[v] == Pending(edges, v, {})
    {
      inDegree := map[];
      for i := 0 to |nodes|
        invariant inDegree.Keys == Elems(nodes[..i])
        invariant forall v :: v in inDegree ==> inDegree[v] == 0
      {
        assert nodes[..i + 1] == nodes[..i] + [nodes[i]];
        inDegree := inDegree[nodes[i] := 0];
      }
      assert nodes[..|nodes|] == nodes;

      for i := 0 to |edges|
        invariant inDegree.Keys == Elems(nodes)
        invariant forall v :: v in inDegree ==> inDegree[v] == Pending(edges[..i], v, {})
      {
        assert edges[..i + 1][..i] == edges[..i];
        var t := edges[i].to;
        if t in inDegree {
          inDegree := inDegree[t := inDegree[t] + 1];
        }
      }
      assert edges[..|edges|] == edges;
    }

    /** The third step of `topoSort`: the nodes whose in-degree is 0, in node order. */
    method ZeroInDegreeNodes(inDegree: map<NodeId, int>) returns (queue: seq<NodeId>)
      requires NoDup(nodes) && inDegree.Keys == Elems(nodes)
      ensures NoDup(queue)
      ensures forall v :: v in queue <==> v in nodes && inDegree[v] == 0
    {
      queue := [];
      for i := 0 to |nodes|
        invariant NoDup(queue)
        invariant forall v :: v in queue <==> v in nodes[..i] && inDegree[v] == 0
      {
        assert nodes[..i + 1] == nodes[..i] + [nodes[i]];
        if inDegree[nodes[i]] == 0 {
          queue := queue + [nodes[i]];
        }
      }
      assert nodes[..|nodes|] == nodes;
    }

    /**
     * The inner loop of `topoSort`: one decrement per edge out of the emitted
     * node, queueing every tail whose in-degree drops to 0.
     */
    method ReleaseTails(inDegree0: map<NodeId, int>, queue0: seq<NodeId>, node: NodeId, ghost order: seq<NodeId>)
      returns (inDegree: map<NodeId, int>, queue: seq<NodeId>)
      requires node in order
      requires inDegree0.Keys == Elems(nodes)
      requires forall v :: v in inDegree0 ==> inDegree0[v] == Pending(edges, v, Elems(order) - {node})
      requires node !in Elems(order) - {node}
      requires forall v :: v in TailsOf(edges, node) ==> v !in order
      requires NoDup(queue0)
      requires forall v :: v in queue0 <==> v in nodes && v !in order && inDegree0[v] == 0
      ensures inDegree.Keys == Elems(nodes)
      ensures forall v :: v in inDegree ==> inDegree[v] == Pending(edges, v, Elems(order))
      ensures NoDup(queue)
      ensures forall v :: v in queue <==> v in nodes && v !in order && inDegree[v] == 0
    {
      ghost var done := Elems(order) - {node};
      assert Elems(order) == done + {node};
      var tails := TailsOf(edges, node);
      forall v | v in inDegree0
        ensures inDegree0[v] == Pending(edges, v, Elems(order)) + multiset(tails[0..])[v]
      {
        assert tails[0..] == tails;
        PendingStep(edges, v, done, node);
      }
      inDegree, queue := inDegree0, queue0;
      for j := 0 to |tails|
        invariant inDegree.Keys == Elems(nodes)
        invariant forall v :: v in inDegree ==> inDegree[v] == Pending(edges, v, Elems(order)) + multiset(tails[j..])[v]
        invariant NoDup(queue)
        invariant forall v :: v in queue <==> v in nodes && v !in order && inDegree[v] == 0
      {
        inDegree, queue := DecrementInDegree(inDegree, queue, tails[j], order, tails[j..]);
        assert tails[j..][1..] == tails[j + 1..];
      }
    }

    /** One step of the inner loop of `topoSort`: `inDegree[tail]--`, queueing `tail` at 0. */
    method DecrementInDegree(inDegree0: map<NodeId, int>, queue0: seq<NodeId>, tail: NodeId,
                             ghost order: seq<NodeId>, ghost rest: seq<NodeId>)
      returns (inDegree: map<NodeId, int>, queue: seq<NodeId>)
      requires |rest| > 0 && rest[0] == tail && tail !in order
      requires inDegree0.Keys == Elems(nodes)
      requires forall v :: v in inDegree0 ==> inDegree0[v] == Pending(edges, v, Elems(order)) + multiset(rest)[v]
      requires NoDup(queue0)
      requires forall v :: v in queue0 <==> v in nodes && v !in order && inDegree0[v] == 0
      ensures inDegree.Keys == Elems(nodes)
      ensures forall v :: v in inDegree ==> inDegree[v] == Pending(edges, v, Elems(order)) + multiset(rest[1..])[v]
      ensures NoDup(queue)
      ensures forall v :: v in queue <==> v in nodes && v !in order && inDegree[v] == 0
    {
      assert rest == [tail] + rest[1..];
      inDegree, queue := inDegree0, queue0;
      if tail in inDegree {
        inDegree := inDegree[tail := inDegree[tail] - 1];
        if inDegree[tail] == 0 {
          queue := queue + [tail];
        }
      }
    }

    /**
     * `topoSort`, Kahn's algorithm. The result lists each node at most once,
     * only after all of its heads, and stops only when every node left out
     * still waits on a left-out head; on a valid acyclic graph it lists every node.
     */
    method TopoSort() returns (order: seq<NodeId>)
      requires NoDup(nodes)
      ensures NoDup(order)
      ensures forall v :: v in order ==> v in nodes
      ensures RespectsEdges(edges, order)
      ensures Blocked(nodes, edges, order)
      ensures Valid() && !HasCycle(edges) ==> |order| == |nodes|
    {
      var inDegree := InitialInDegrees();
      var queue := ZeroInDegreeNodes(inDegree);
      order := [];
      assert Elems(order) == {};
      while |queue| > 0
        invariant inDegree.Keys == Elems(nodes)
        invariant forall v :: v in inDegree ==> inDegree[v] == Pending(edges, v, Elems(order))
        invariant NoDup(order) && NoDup(queue)
        invariant forall v :: v in order ==> v in nodes
        invariant forall v :: v in queue <==> v in nodes && v !in order && inDegree[v] == 0
        invariant RespectsEdges(edges, order)
        decreases Elems(nodes) - Elems(order)
      {
        var node := queue[0];
        queue := queue[1..];
        EmitKeepsOrder(edges, order, node);
        Emit(nodes, order, node);
        order := order + [node];
        inDegree, queue := ReleaseTails(inDegree, queue, node, order);
      }

      forall v | v in nodes && v !in order
        ensures BlockedAt(edges, order, v)
      {
        PendingPositive(edges, v, Elems(order));
      }
      if Valid() && !HasCycle(edges) {
        BlockedAcyclicFull(nodes, edges, order);
        assert Elems(order) == Elems(nodes);
        NoDupCard(order);
        NoDupCard(nodes);
      }
    }

    /**
     * The `forEach` of `getAllHeads`: every direct head of `next` is added to
     * `headSet` and to `toVisit`, each an insertion-ordered set.
     */
    method QueueHeadsOf(next: NodeId, heads0: seq<NodeId>, toVisit0: seq<NodeId>)
      returns (heads: seq<NodeId>, toVisit: seq<NodeId>)
      requires NoDup(heads0) && NoDup(toVisit0)
      ensures |toVisit0| <= |toVisit| <= |toVisit0| + |edges| && toVisit[..|toVisit0|] == toVisit0
      ensures forall x :: x in toVisit[|toVisit0|..] ==> Edge(x, next) in edges
      ensures NoDup(heads) && NoDup(toVisit)
      ensures forall x :: x in heads <==> x in heads0 || Edge(x, next) in edges
      ensures forall x :: x in heads && x !in heads0 ==> x in toVisit
      ensures forall u :: Edge(u, next) in edges ==> u in toVisit
    {
      var nextHeads := HeadsOf(edges, next);
      heads, toVisit := heads0, toVisit0;
      for j := 0 to |nextHeads|
        invariant |toVisit0| <= |toVisit| <= |toVisit0| + j && toVisit[..|toVisit0|] == toVisit0
        invariant forall x :: x in toVisit[|toVisit0|..] ==> Edge(x, next) in edges
        invariant NoDup(heads) && NoDup(toVisit)
        invariant forall x :: x in heads <==> x in heads0 || x in nextHeads[..j]
        invariant forall x :: x in heads && x !in heads0 ==> x in toVisit
        invariant forall x :: x in nextHeads[..j] ==> x in toVisit
      {
        var h := nextHeads[j];
        assert nextHeads[..j + 1] == nextHeads[..j] + [h];
        if h !in heads {
          heads := heads + [h];
        }
        if h !in toVisit {
          toVisit := toVisit + [h];
        }
      }
      assert nextHeads[..|nextHeads|] == nextHeads;
    }

    /**
     * `getAllHeads`, breadth-first. `toVisit` and `headSet` are insertion-ordered
     * sets: adding a present element changes nothing, and the next node visited
     * is the oldest one. A node may be visited again after it left `toVisit`, so
     * the search stops only on an acyclic graph; the result is then exactly the
     * nodes with a non-empty path to `node`, each once.
     */
    method AllHeads(node: NodeId) returns (heads: seq<NodeId>)
      requires !HasCycle(edges)
      ensures NoDup(heads)
      ensures forall x :: x in heads <==> Reaches(edges, x, node)
    {
      heads := [];
      var toVisit := [node];
      ghost var visited: set<NodeId> := {};
      while |toVisit| > 0
        invariant NoDup(toVisit) && NoDup(heads)
        invariant forall x :: x in heads ==> Reaches(edges, x, node)
        invariant forall x :: x in toVisit ==> x == node || Reaches(edges, x, node)
        invariant node in toVisit || node in visited
        invariant forall x :: x in heads ==> x in toVisit || x in visited
        invariant forall v, u :: v in visited && Edge(u, v) in edges ==> u in heads
        decreases Weight(edges, toVisit)
      {
        var next := toVisit[0];
        ghost var before := toVisit;
        ghost var heads0 := heads;
        heads, toVisit := QueueHeadsOf(next, heads, toVisit);
        ghost var added := toVisit[|before|..];
        assert toVisit == before + added;
        HeadsReach(edges, next, node);
        assert toVisit[1..] == before[1..] + added;
        VisitLighter(edges, before, added);
        toVisit := toVisit[1..];
        visited := visited + {next};
      }
      forall x | Reaches(edges, x, node)
        ensures x in heads
      {
        var p :| IsPath(edges, p) && p[0] == x && p[|p| - 1] == node;
        ClosedUnderHeads(edges, visited, heads, p);
      }
    }

    /**
     * `getAllTails`: the same breadth-first search with every edge turned
     * around, so the result is exactly the nodes reachable from `node` by a
     * non-empty path, each once.
     */
    method AllTails(node: NodeId) returns (tails: seq<NodeId>)
      requires !HasCycle(edges)
      ensures NoDup(tails)
      ensures forall x :: x in tails <==> Reaches(edges, node, x)
    {
      AcyclicReverse(edges);
      var reversed := new Graph(nodes, Reverse(edges));
      tails := reversed.AllHeads(node);
      forall x
        ensures x in tails <==> Reaches(edges, node, x)
      {
        ReachesReverse(edges, x, node);
      }
    }

    /** `detectCycle`: the sort comes out shorter than the node list exactly when there is a cycle. */
    method DetectCycle() returns (r: bool)
      requires Valid()
      ensures r <==> HasCycle(edges)
    {
      var order := TopoSort();
      r := |order| < |nodes|;
      if !r {
        FullLengthAcyclic(nodes, edges, order);
      }
    }
  }

  /** The example of the class documentation: a -> b -> c -> d -> a plus e -> a has a cycle. */
  method DetectCycleExample() returns (r: bool)
    ensures r
  {
    var g := new Graph(["a", "b", "c", "d", "e"],
                       [Edge("a", "b"), Edge("b", "c"), Edge("c", "d"), Edge("d", "a"), Edge("e", "a")]);
    assert IsPath(g.edges, ["a", "b", "c", "d", "a"]);
    r := g.DetectCycle();
  }
}
