/** Control-flow graphs of labelled blocks, their paths, and the worklist search that the
    checkers use as a dominance test.

    A graph maps each block to the labels its terminator names. The search skips one
    removed edge and does not expand the stop labels. */
module ControlGraph {
  import opened Options

  type Label = string
  type Graph = map<Label, seq<Label>>
  type Edge = (Label, Label)

  /** What the search answers: the visited labels, a forbidden block it met, or a block
      that the graph does not define (a KeyError in the source). */
  datatype Verdict =
    | Accepted(visited: set<Label>)
    | Rejected(at: Label)
    | Undefined(at: Label)

  ghost predicate Arc(g: Graph, removed: Option<Edge>, a: Label, b: Label) {
    a in g && b in g[a] && removed != Some((a, b))
  }

  ghost predicate IsPath(g: Graph, removed: Option<Edge>, p: seq<Label>) {
    |p| > 0 && forall i :: 0 <= i < |p| - 1 ==> Arc(g, removed, p[i], p[i + 1])
  }

  ghost predicate Avoids(p: seq<Label>, stops: set<Label>) {
    forall i :: 0 <= i < |p| ==> p[i] !in stops
  }

  ghost predicate Leads(g: Graph, removed: Option<Edge>, stops: set<Label>, p: seq<Label>, a: Label, b: Label) {
    IsPath(g, removed, p) && p[0] == a && p[|p| - 1] == b && Avoids(p, stops)
  }

  /** b can be reached from a without the removed edge and without touching a stop block. */
  ghost predicate Reaches(g: Graph, removed: Option<Edge>, stops: set<Label>, a: Label, b: Label) {
    exists p :: Leads(g, removed, stops, p, a, b)
  }

  lemma ReachesStep(g: Graph, removed: Option<Edge>, stops: set<Label>, a: Label, b: Label, c: Label)
    requires Reaches(g, removed, stops, a, b) && Arc(g, removed, b, c) && c !in stops
    ensures Reaches(g, removed, stops, a, c)
  {
    var p :| Leads(g, removed, stops, p, a, b);
    assert Leads(g, removed, stops, p + [c], a, c);
  }

  /** A set that holds the source and is closed under arcs holds every reachable block. */
  lemma {:induction false} ClosedHoldsPath(g: Graph, removed: Option<Edge>, stops: set<Label>, s: set<Label>,
      p: seq<Label>, a: Label, b: Label)
    requires Leads(g, removed, stops, p, a, b) && a in s
    requires forall x, y :: x in s && Arc(g, removed, x, y) && y !in stops ==> y in s
    ensures b in s
  {
    if |p| > 1 {
      var q := p[..|p| - 1];
      assert Leads(g, removed, stops, q, a, q[|q| - 1]);
      ClosedHoldsPath(g, removed, stops, s, q, a, q[|q| - 1]);
      assert Arc(g, removed, p[|p| - 2], p[|p| - 1]);
    }
  }

  /** Appends the targets of a block that are not the removed edge, in order. */
  method Extend(g: Graph, removed: Option<Edge>, block: Label, pending: seq<Label>) returns (more: seq<Label>)
    requires block in g
    ensures pending <= more
    ensures forall k :: |pending| <= k < |more| ==> Arc(g, removed, block, more[k])
    ensures forall y :: Arc(g, removed, block, y) ==> y in more[|pending|..]
  {
    more := pending;
    for i := 0 to |g[block]|
      invariant pending <= more
      invariant forall j :: 0 <= j < i && removed != Some((block, g[block][j])) ==> g[block][j] in more[|pending|..]
      invariant forall k :: |pending| <= k < |more| ==> Arc(g, removed, block, more[k])
    {
      ghost var was := more;
      if removed != Some((block, g[block][i])) {
        more := more + [g[block][i]];
        assert more[|pending|..] == was[|pending|..] + [g[block][i]];
      }
    }
  }

  /** No reachable block is forbidden or undefined. */
  ghost predicate Clean(g: Graph, start: Label, forbidden: set<Label>, removed: Option<Edge>, stops: set<Label>) {
    forall x :: Reaches(g, removed, stops, start, x) ==> x !in forbidden && x in g
  }

  /** What the loop knows about the visited set and the pending stack. */
  ghost predicate Explored(g: Graph, start: Label, forbidden: set<Label>, removed: Option<Edge>, stops: set<Label>,
      pending: seq<Label>, visited: set<Label>)
  {
    && visited <= g.Keys && visited !! forbidden && visited !! stops
    && (forall i :: 0 <= i < |pending| && pending[i] !in stops ==> Reaches(g, removed, stops, start, pending[i]))
    && (forall x :: x in visited ==> Reaches(g, removed, stops, start, x))
  }

  ghost predicate Covered(g: Graph, start: Label, removed: Option<Edge>, stops: set<Label>,
      pending: seq<Label>, visited: set<Label>)
  {
    && (start in visited || start in pending || start in stops)
    && forall x, y :: x in visited && Arc(g, removed, x, y) && y !in stops ==> y in visited || y in pending
  }

  lemma CoveredPop(g: Graph, start: Label, removed: Option<Edge>, stops: set<Label>,
      pending: seq<Label>, block: Label, visited: set<Label>)
    requires Covered(g, start, removed, stops, pending + [block], visited)
    requires block in visited || block in stops
    ensures Covered(g, start, removed, stops, pending, visited)
  {
  }

  lemma SearchBegins(g: Graph, start: Label, forbidden: set<Label>, removed: Option<Edge>, stops: set<Label>)
    ensures Explored(g, start, forbidden, removed, stops, [start], {})
    ensures Covered(g, start, removed, stops, [start], {})
  {
    if start !in stops {
      assert Leads(g, removed, stops, [start], start, start);
    }
  }

  lemma NotClean(g: Graph, start: Label, forbidden: set<Label>, removed: Option<Edge>, stops: set<Label>, x: Label)
    requires Reaches(g, removed, stops, start, x) && (x in forbidden || x !in g)
    ensures !Clean(g, start, forbidden, removed, stops)
  {
  }

  lemma ExploredPop(g: Graph, start: Label, forbidden: set<Label>, removed: Option<Edge>, stops: set<Label>,
      pending: seq<Label>, block: Label, visited: set<Label>)
    requires Explored(g, start, forbidden, removed, stops, pending + [block], visited)
    ensures Explored(g, start, forbidden, removed, stops, pending, visited)
    ensures block !in stops ==> Reaches(g, removed, stops, start, block)
  {
    assert (pending + [block])[|pending|] == block;
    assert forall i :: 0 <= i < |pending| ==> (pending + [block])[i] == pending[i];
  }

  lemma CoveredVisit(g: Graph, start: Label, removed: Option<Edge>, stops: set<Label>,
      pending: seq<Label>, block: Label, more: seq<Label>, visited: set<Label>)
    requires Covered(g, start, removed, stops, pending + [block], visited)
    requires pending <= more
    requires forall y :: Arc(g, removed, block, y) ==> y in more[|pending|..]
    ensures Covered(g, start, removed, stops, more, visited + {block})
  {
    forall y | y in pending + [block] ensures y in more || y == block {
      if y in pending { assert y in more[..|pending|]; }
    }
  }

  lemma ExploredVisit(g: Graph, start: Label, forbidden: set<Label>, removed: Option<Edge>, stops: set<Label>,
      pending: seq<Label>, block: Label, more: seq<Label>, visited: set<Label>)
    requires Explored(g, start, forbidden, removed, stops, pending + [block], visited)
    requires block in g && block !in forbidden && block !in stops
    requires pending <= more
    requires forall k :: |pending| <= k < |more| ==> Arc(g, removed, block, more[k])
    ensures Explored(g, start, forbidden, removed, stops, more, visited + {block})
  {
    assert (pending + [block])[|pending|] == block;
    forall k | 0 <= k < |more| && more[k] !in stops
      ensures Reaches(g, removed, stops, start, more[k])
    {
      if k < |pending| {
        assert more[k] == (pending + [block])[k];
      } else {
        ReachesStep(g, removed, stops, start, block, more[k]);
      }
    }
  }

  lemma VisitedIsReached(g: Graph, start: Label, forbidden: set<Label>, removed: Option<Edge>, stops: set<Label>,
      visited: set<Label>)
    requires Explored(g, start, forbidden, removed, stops, [], visited)
    requires Covered(g, start, removed, stops, [], visited)
    ensures forall x :: x in visited <==> Reaches(g, removed, stops, start, x)
    ensures Clean(g, start, forbidden, removed, stops)
  {
    forall x | Reaches(g, removed, stops, start, x) ensures x in visited {
      var p :| Leads(g, removed, stops, p, start, x);
      assert start !in stops by { assert p[0] == start; }
      ClosedHoldsPath(g, removed, stops, visited, p, start, x);
    }
  }

  /** The worklist search. It accepts exactly when no reachable block is forbidden or
      undefined, and then it has visited exactly the reachable labels. */
  method Search(g: Graph, start: Label, forbidden: set<Label>, removed: Option<Edge>, stops: set<Label>)
    returns (r: Verdict)
    ensures r.Accepted? ==> forall x :: x in r.visited <==> Reaches(g, removed, stops, start, x)
    ensures r.Accepted? <==> Clean(g, start, forbidden, removed, stops)
    ensures r.Rejected? ==> r.at in forbidden && Reaches(g, removed, stops, start, r.at)
    ensures r.Undefined? ==> r.at !in g && Reaches(g, removed, stops, start, r.at)
  {
    hide *;
    var pending, visited: set<Label> := [start], {};
    SearchBegins(g, start, forbidden, removed, stops);
    while pending != []
      invariant Explored(g, start, forbidden, removed, stops, pending, visited)
      invariant Covered(g, start, removed, stops, pending, visited)
      decreases |g.Keys - visited|, |pending|
    {
      var block := pending[|pending| - 1];
      assert pending == pending[..|pending| - 1] + [block];
      pending := pending[..|pending| - 1];
      ExploredPop(g, start, forbidden, removed, stops, pending, block, visited);
      if block in visited || block in stops {
        CoveredPop(g, start, removed, stops, pending, block, visited);
        continue;
      }
      if block in forbidden || block !in g {
        NotClean(g, start, forbidden, removed, stops, block);
        return if block in forbidden then Rejected(block) else Undefined(block);
      }
      var more := Extend(g, removed, block, pending);
      ExploredVisit(g, start, forbidden, removed, stops, pending, block, more, visited);
      CoveredVisit(g, start, removed, stops, pending, block, more, visited);
      Shrinks(g.Keys, visited, block);
      visited := visited + {block};
      pending := more;
    }
    VisitedIsReached(g, start, forbidden, removed, stops, visited);
    return Accepted(visited);
  }

  lemma Shrinks<T>(all: set<T>, visited: set<T>, x: T)
    requires x in all && x !in visited
    ensures |all - (visited + {x})| < |all - visited|
  {
    assert all - visited == all - (visited + {x}) + {x};
  }

  /** p takes the edge e at some step. */
  ghost predicate Crosses(p: seq<Label>, e: Edge) {
    exists i :: 0 <= i < |p| - 1 && p[i] == e.0 && p[i + 1] == e.1
  }

  /** p meets one of the labels. */
  ghost predicate Meets(p: seq<Label>, labels: set<Label>) {
    exists i :: 0 <= i < |p| && p[i] in labels
  }

  /** What the search must not come to. */
  predicate Bad(g: Graph, forbidden: set<Label>, x: Label) {
    x in forbidden || x !in g
  }

  /** Dominance by edge removal: the search without the edge accepts exactly if every path to a
      forbidden or undefined label in the whole graph crosses the edge. */
  lemma EdgeDominance(g: Graph, start: Label, forbidden: set<Label>, e: Edge)
    ensures Clean(g, start, forbidden, Some(e), {})
       <==> (forall p, x :: Leads(g, None, {}, p, start, x) && Bad(g, forbidden, x) ==> Crosses(p, e))
  {
    hide Bad;
    forall p, x | Leads(g, None, {}, p, start, x) && !Crosses(p, e)
      ensures Reaches(g, Some(e), {}, start, x)
    {
      forall i | 0 <= i < |p| - 1 ensures Arc(g, Some(e), p[i], p[i + 1]) {
        assert Arc(g, None, p[i], p[i + 1]);
      }
      assert Leads(g, Some(e), {}, p, start, x);
    }
    forall x | Reaches(g, Some(e), {}, start, x)
      ensures exists p :: Leads(g, None, {}, p, start, x) && !Crosses(p, e)
    {
      var p :| Leads(g, Some(e), {}, p, start, x);
      forall i | 0 <= i < |p| - 1 ensures Arc(g, None, p[i], p[i + 1]) && (p[i], p[i + 1]) != e {
        assert Arc(g, Some(e), p[i], p[i + 1]);
      }
      assert Leads(g, None, {}, p, start, x) && !Crosses(p, e);
    }
    CleanIsNotBad(g, start, forbidden, Some(e), {});
  }

  lemma CleanIsNotBad(g: Graph, start: Label, forbidden: set<Label>, removed: Option<Edge>, stops: set<Label>)
    ensures Clean(g, start, forbidden, removed, stops)
       <==> (forall x :: Reaches(g, removed, stops, start, x) ==> !Bad(g, forbidden, x))
  {
    hide Reaches;
  }

  /** Dominance by stopping: the search that stops at the stop labels accepts exactly if every path
      to a forbidden or undefined label meets a stop block. */
  lemma StopDominance(g: Graph, start: Label, forbidden: set<Label>, stops: set<Label>)
    ensures Clean(g, start, forbidden, None, stops)
       <==> (forall p, x :: Leads(g, None, {}, p, start, x) && Bad(g, forbidden, x) ==> Meets(p, stops))
  {
    hide Bad;
    forall p, x | Leads(g, None, {}, p, start, x) && !Meets(p, stops)
      ensures Reaches(g, None, stops, start, x)
    {
      assert Leads(g, None, stops, p, start, x);
    }
    forall x | Reaches(g, None, stops, start, x)
      ensures exists p :: Leads(g, None, {}, p, start, x) && !Meets(p, stops)
    {
      var p :| Leads(g, None, stops, p, start, x);
      assert Leads(g, None, {}, p, start, x) && !Meets(p, stops);
    }
    CleanIsNotBad(g, start, forbidden, None, stops);
  }

  /** The source's first use: the edge dominates the forbidden labels, decided by one search. */
  method DecidesEdge(g: Graph, start: Label, forbidden: set<Label>, e: Edge) returns (r: Verdict)
    ensures r.Accepted?
       <==> (forall p, x :: Leads(g, None, {}, p, start, x) && Bad(g, forbidden, x) ==> Crosses(p, e))
  {
    EdgeDominance(g, start, forbidden, e);
    r := Search(g, start, forbidden, Some(e), {});
  }

  /** The source's second use: the stops cut the forbidden labels off. */
  method DecidesStops(g: Graph, start: Label, forbidden: set<Label>, stops: set<Label>) returns (r: Verdict)
    ensures r.Accepted?
       <==> (forall p, x :: Leads(g, None, {}, p, start, x) && Bad(g, forbidden, x) ==> Meets(p, stops))
  {
    StopDominance(g, start, forbidden, stops);
    r := Search(g, start, forbidden, None, stops);
  }
}
