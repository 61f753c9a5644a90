/** The recursion guard: a memoised depth-first search that accepts exactly the acyclic call graphs. */
module CallGraph {
  import opened Sets

  type Graph = set<(int, int)>

  predicate Edge(g: Graph, a: int, b: int) {
    (a, b) in g
  }

  /** A walk along at least one edge. */
  ghost predicate Walk(g: Graph, w: seq<int>) {
    |w| >= 2 && forall i :: 0 <= i < |w| - 1 ==> Edge(g, w[i], w[i + 1])
  }

  ghost predicate Cyclic(g: Graph) {
    exists w :: Walk(g, w) && w[0] == w[|w| - 1]
  }

  ghost predicate Reaches(g: Graph, a: int, b: int) {
    a == b || exists w :: Walk(g, w) && w[0] == a && w[|w| - 1] == b
  }

  function Targets(g: Graph, n: int): set<int> {
    set e | e in g && e.0 == n :: e.1
  }

  function Nodes(g: Graph): set<int> {
    (set e | e in g :: e.0) + (set e | e in g :: e.1)
  }

  lemma ReachesStep(g: Graph, a: int, b: int, c: int)
    requires Reaches(g, a, b) && Edge(g, b, c)
    ensures exists w :: Walk(g, w) && w[0] == a && w[|w| - 1] == c
  {
    if a == b {
      assert Walk(g, [a, c]);
    } else {
      var w :| Walk(g, w) && w[0] == a && w[|w| - 1] == b;
      var v := w + [c];
      forall i | 0 <= i < |v| - 1 ensures Edge(g, v[i], v[i + 1]) {
        if i < |w| - 1 {
          assert v[i] == w[i] && v[i + 1] == w[i + 1];
        }
      }
      assert Walk(g, v);
    }
  }

  /** What the memo set records: searched nodes, closed under edges, carrying no cycle. */
  ghost predicate Searched(g: Graph, done: set<int>) {
    && (forall a, b :: Edge(g, a, b) && a in done ==> b in done)
    && !(exists w :: Walk(g, w) && w[0] == w[|w| - 1] && w[0] in done)
  }

  lemma {:induction false} WalkStaysSearched(g: Graph, done: set<int>, w: seq<int>, i: nat)
    requires Searched(g, done) && Walk(g, w) && i < |w| && w[0] in done
    ensures w[i] in done
  {
    if i > 0 {
      WalkStaysSearched(g, done, w, i - 1);
      var k := i - 1;
      assert Edge(g, w[k], w[k + 1]);
    }
  }

  lemma {:induction false} SearchedExtends(g: Graph, done: set<int>, n: int)
    requires Searched(g, done) && n !in done
    requires forall t :: t in Targets(g, n) ==> t in done
    ensures Searched(g, done + {n})
  {
    forall a, b | Edge(g, a, b) && a in done + {n} ensures b in done + {n} {
      if a == n {
        assert b in Targets(g, n);
      }
    }
    forall w | Walk(g, w) && w[0] == w[|w| - 1] ensures w[0] !in done + {n} {
      if w[0] == n {
        assert Edge(g, w[0], w[0 + 1]);
        assert w[1] in Targets(g, n);
        if |w| == 2 {
          assert false;
        } else {
          var v := w[1..];
          forall i | 0 <= i < |v| - 1 ensures Edge(g, v[i], v[i + 1]) {
            assert Edge(g, w[i + 1], w[i + 1 + 1]);
          }
          WalkStaysSearched(g, done, v, |v| - 1);
        }
      }
    }
  }

  /** Visits `node` below the nodes of `path`; refuses exactly when it closes a cycle. */
  method Visit(g: Graph, node: int, path: set<int>, done: set<int>) returns (ok: bool, done': set<int>)
    requires node in Nodes(g) && path <= Nodes(g)
    requires Searched(g, done) && path !! done
    requires forall q :: q in path ==> exists w :: Walk(g, w) && w[0] == q && w[|w| - 1] == node
    ensures ok ==> done <= done' && node in done' && Searched(g, done') && path !! done'
    ensures !ok ==> Cyclic(g)
    decreases Nodes(g) - path
  {
    if node in path {
      return false, done;
    }
    if node in done {
      return true, done;
    }
    done' := done;
    var rest := Targets(g, node);
    while rest != {}
      invariant rest <= Targets(g, node)
      invariant done <= done' && Searched(g, done') && path + {node} !! done'
      invariant forall t :: t in Targets(g, node) && t !in rest ==> t in done'
      decreases rest
    {
      Inhabited(rest);
      var t :| t in rest;
      assert Edge(g, node, t);
      forall q | q in path + {node}
        ensures exists w :: Walk(g, w) && w[0] == q && w[|w| - 1] == t
      {
        ReachesStep(g, q, node, t);
      }
      ok, done' := Visit(g, t, path + {node}, done');
      if !ok {
        return;
      }
      rest := rest - {t};
    }
    SearchedExtends(g, done', node);
    done' := done' + {node};
    ok := true;
  }

  method CheckAcyclic(g: Graph) returns (ok: bool)
    ensures ok <==> !Cyclic(g)
  {
    var done := {};
    var rest := set e | e in g :: e.0;
    while rest != {}
      invariant rest <= Nodes(g)
      invariant Searched(g, done)
      invariant forall e :: e in g ==> e.0 in rest || e.0 in done
      decreases rest
    {
      Inhabited(rest);
      var n :| n in rest;
      ok, done := Visit(g, n, {}, done);
      if !ok {
        return;
      }
      rest := rest - {n};
    }
    forall w | Walk(g, w) ensures w[0] != w[|w| - 1] {
      assert Edge(g, w[0], w[0 + 1]);
    }
    ok := true;
  }
}
