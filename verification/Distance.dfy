// Hop distance over a set of directed session ends: the reference the
// distance-vector tables are measured against.
module Distance {
  import opened Base

  /** x is at most k hops from a. */
  ghost predicate Within(links: set<Link>, k: int, a: Node, x: Node)
    decreases k
  {
    k >= 0 && (a == x || (k > 0 && exists b :: (a, b) in links && Within(links, k - 1, b, x)))
  }

  /** x is exactly k hops from a. */
  ghost predicate Distant(links: set<Link>, k: int, a: Node, x: Node) {
    Within(links, k, a, x) && !Within(links, k - 1, a, x)
  }

  lemma {:induction false} WithinMonotone(links: set<Link>, links': set<Link>, k: int, k': int, a: Node, x: Node)
    requires links <= links' && k <= k' && Within(links, k, a, x)
    ensures Within(links', k', a, x)
    decreases k
  {
    if a != x {
      var b :| (a, b) in links && Within(links, k - 1, b, x);
      WithinMonotone(links, links', k - 1, k' - 1, b, x);
    }
  }

  lemma WithinStep(links: set<Link>, k: int, a: Node, b: Node, x: Node)
    requires (a, b) in links && Within(links, k, b, x)
    ensures Within(links, k + 1, a, x)
  {
  }

  /** Both ends of every session are present. */
  ghost predicate Symmetric(links: set<Link>) {
    forall a, b :: (a, b) in links ==> (b, a) in links
  }

  lemma {:induction false} WithinConcat(links: set<Link>, j: int, k: int, a: Node, b: Node, x: Node)
    requires Within(links, j, a, b) && Within(links, k, b, x)
    ensures Within(links, j + k, a, x)
    decreases j
  {
    if a == b {
      WithinMonotone(links, links, k, j + k, a, x);
    } else {
      var c :| (a, c) in links && Within(links, j - 1, c, b);
      WithinConcat(links, j - 1, k, c, b, x);
      WithinStep(links, j - 1 + k, a, c, x);
    }
  }

  lemma {:induction false} WithinReverse(links: set<Link>, k: int, a: Node, x: Node)
    requires Symmetric(links) && Within(links, k, a, x)
    ensures Within(links, k, x, a)
    decreases k
  {
    if a != x {
      var b :| (a, b) in links && Within(links, k - 1, b, x);
      WithinReverse(links, k - 1, b, x);
      assert Within(links, 0, a, a);
      WithinStep(links, 0, b, a, a);
      WithinConcat(links, k - 1, 1, x, b, a);
    }
  }

}
