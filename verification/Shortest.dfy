// Distances on a converged mesh: tables that a run has brought to quiescence
// agree with the session graph, so next hops are shortest-path steps.
module Shortest {
  import opened Base
  import opened Rib
  import opened Router
  import opened Distance
  import opened Mesh
  import Convergence
  import MeshInvariant

  /** A mesh that an up-only run has brought to quiescence. */
  ghost predicate Converged(net: Net) {
    exists exits, run :: ValidRun(exits, Start, run) && Exec(exits, Start, run) == net && Convergence.Quiescent(net)
  }

  lemma {:induction false} ConvergedFacts(net: Net)
    requires Converged(net)
    ensures Inv(net) && Convergence.Exact(net) && Symmetric(net.reg)
  {
    var exits, run :| ValidRun(exits, Start, run) && Exec(exits, Start, run) == net && Convergence.Quiescent(net);
    Convergence.QuiescentIsExact(exits, run);
    MeshInvariant.StartInv();
    MeshInvariant.RunKeepsInv(exits, Start, run);
  }

  lemma {:induction false} SessionsAreMutual(net: Net, a: Node, b: Node)
    requires Converged(net) && (a, b) in net.reg
    ensures (b, a) in net.reg && a != b
  {
    ConvergedFacts(net);
  }

  /** A present entry is at least one hop. */
  lemma {:induction false} MetricRange(net: Net, n: Node, x: Node)
    requires Converged(net)
    ensures 0 <= M(net, n, x) <= ROUTE_INFINITY && (M(net, n, x) == 0 <==> n == x)
    ensures n != x ==> (M(net, n, x) < ROUTE_INFINITY <==> Ula(x) in RibOf(net, n))
  {
    ConvergedFacts(net);
    assert EntryInv(net, n, x);
  }

  lemma {:induction false} MetricIsDistance(net: Net, n: Node, x: Node)
    requires Converged(net) && M(net, n, x) < ROUTE_INFINITY
    ensures M(net, n, x) >= 0 && Distant(net.reg, M(net, n, x), n, x)
  {
    MetricRange(net, n, x);
    ConvergedFacts(net);
  }

  lemma {:induction false} DistanceIsMetric(net: Net, n: Node, x: Node, k: int)
    requires Converged(net) && Distant(net.reg, k, n, x) && 0 <= k < ROUTE_INFINITY
    ensures M(net, n, x) == k
  {
    ConvergedFacts(net);
  }

  lemma {:induction false} MetricIsLeast(net: Net, k: int, n: Node, x: Node)
    requires Converged(net) && Within(net.reg, k, n, x) && 0 <= k < ROUTE_INFINITY
    ensures M(net, n, x) <= k
    decreases k
  {
    if Within(net.reg, k - 1, n, x) {
      MetricIsLeast(net, k - 1, n, x);
    } else {
      ConvergedFacts(net);
      assert Distant(net.reg, k, n, x);
    }
  }

  lemma {:induction false} MetricAtMostReversed(net: Net, n: Node, x: Node)
    requires Converged(net) && M(net, n, x) < ROUTE_INFINITY
    ensures M(net, x, n) <= M(net, n, x)
  {
    MetricIsDistance(net, n, x);
    assert Symmetric(net.reg) by {
      ConvergedFacts(net);
    }
    WithinReverse(net.reg, M(net, n, x), n, x);
    MetricIsLeast(net, M(net, n, x), x, n);
  }

  lemma {:induction false} MetricIsSymmetric(net: Net, n: Node, x: Node)
    requires Converged(net) && M(net, n, x) < ROUTE_INFINITY
    ensures M(net, x, n) == M(net, n, x)
  {
    MetricAtMostReversed(net, n, x);
    MetricAtMostReversed(net, x, n);
  }

  lemma {:induction false} MetricTriangle(net: Net, a: Node, b: Node, x: Node)
    requires Converged(net) && M(net, a, b) + M(net, b, x) < ROUTE_INFINITY
    ensures M(net, a, x) <= M(net, a, b) + M(net, b, x)
  {
    MetricRange(net, a, b);
    MetricRange(net, b, x);
    MetricIsDistance(net, a, b);
    MetricIsDistance(net, b, x);
    WithinConcat(net.reg, M(net, a, b), M(net, b, x), a, b, x);
    MetricIsLeast(net, M(net, a, b) + M(net, b, x), a, x);
  }

  lemma {:induction false} PeerIsOneHop(net: Net, a: Node, b: Node)
    requires Converged(net) && (a, b) in net.reg
    ensures M(net, a, b) == 1
  {
    SessionsAreMutual(net, a, b);
    assert Within(net.reg, 0, b, b);
    WithinStep(net.reg, 0, a, b, b);
    MetricIsLeast(net, 1, a, b);
    MetricRange(net, a, b);
  }

  /** The next hop on a converged mesh is a session peer exactly one hop
      nearer. */
  lemma {:induction false} NearerHop(net: Net, y: Node, x: Node) returns (w: Node)
    requires Converged(net) && 0 < M(net, y, x) < ROUTE_INFINITY
    ensures y != x && Ula(x) in RibOf(net, y) && RibOf(net, y)[Ula(x)].next == w
    ensures RibOf(net, y)[Ula(x)].metric == M(net, y, x)
    ensures (y, w) in net.reg && (w, y) in net.reg
    ensures M(net, w, x) == M(net, y, x) - 1
  {
    MetricRange(net, y, x);
    w := RibOf(net, y)[Ula(x)].next;
    assert (y, w) in net.reg && 0 <= M(net, w, x) < M(net, y, x) by {
      ConvergedFacts(net);
      Convergence.CloserByInv(net, y, x);
    }
    SessionsAreMutual(net, y, w);
    PeerIsOneHop(net, y, w);
    if M(net, w, x) < ROUTE_INFINITY - 1 {
      MetricTriangle(net, y, w, x);
    }
  }

  /** One step towards d along a shortest path from o is one step away from o. */
  lemma {:induction false} FurtherFromOrigin(net: Net, o: Node, d: Node, y: Node, w: Node)
    requires Converged(net) && M(net, o, d) < ROUTE_INFINITY && (y, w) in net.reg
    requires 0 < M(net, y, d) && M(net, y, o) + M(net, y, d) == M(net, o, d)
    requires M(net, w, d) == M(net, y, d) - 1
    ensures M(net, w, o) == M(net, y, o) + 1
  {
    SessionsAreMutual(net, y, w);
    PeerIsOneHop(net, w, y);
    MetricRange(net, y, o);
    MetricRange(net, w, o);
    MetricTriangle(net, w, y, o);
    MetricIsSymmetric(net, w, o);
    MetricTriangle(net, o, w, d);
  }

  /** What a node of a converged mesh reports as its metric is the true hop
      distance, and -1 exactly when that exceeds 15. */
  lemma {:induction false} RouteMetricIsDistance(node: Router, net: Net, x: Node, k: int)
    requires Converged(net) && node.routes == RibOf(net, node.self) && k >= 0
    ensures node.RouteMetric(x) == k <==> k < 16 && Distant(net.reg, k, node.self, x)
    ensures node.RouteMetric(x) == -1 <==> !Within(net.reg, 15, node.self, x)
  {
    MetricRange(net, node.self, x);
    assert Within(net.reg, ROUTE_INFINITY - 1, node.self, node.self);
    ConvergedFacts(net);
  }
}
