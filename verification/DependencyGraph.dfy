/** Depth-first search over a finite graph: it reports a cycle exactly when there is one. */
module DependencyGraph {

  type Graph = map<string, seq<string>>

  ghost predicate Closed(g: Graph) {
    forall n, d :: n in g && d in g[n] ==> d in g
  }

  ghost predicate IsPath(g: Graph, p: seq<string>) {
    && p != []
    && (forall i :: 0 <= i < |p| ==> p[i] in g)
    && (forall i :: 0 <= i < |p| - 1 ==> p[i + 1] in g[p[i]])
  }

  /** `b` can be reached from `a` by at least one edge. */
  ghost predicate Leads(g: Graph, a: string, b: string) {
    exists p :: IsPath(g, p) && |p| >= 2 && p[0] == a && p[|p| - 1] == b
  }

  ghost predicate HasCycle(g: Graph) {
    exists n :: Leads(g, n, n)
  }

  /** Every edge goes down in rank. */
  ghost predicate Ranked(g: Graph, nodes: set<string>, rank: map<string, nat>) {
    && rank.Keys == nodes && nodes <= g.Keys
    && forall n, d :: n in nodes && d in g[n] ==> d in nodes && rank[d] < rank[n]
  }

  lemma EdgeLeads(g: Graph, a: string, b: string)
    requires a in g && b in g && b in g[a]
    ensures Leads(g, a, b)
  {
    assert IsPath(g, [a, b]);
  }

  lemma LeadsFurther(g: Graph, a: string, b: string, c: string)
    requires Leads(g, a, b) && c in g && c in g[b]
    ensures Leads(g, a, c)
  {
    var p :| IsPath(g, p) && |p| >= 2 && p[0] == a && p[|p| - 1] == b;
    assert IsPath(g, p + [c]);
  }

  lemma {:induction false} PathDescends(g: Graph, rank: map<string, nat>, p: seq<string>)
    requires Ranked(g, g.Keys, rank) && IsPath(g, p) && |p| >= 2
    ensures p[0] in rank && p[|p| - 1] in rank && rank[p[|p| - 1]] < rank[p[0]]
  {
    var n := |p| - 1;
    assert p[n] in g[p[n - 1]];
    if n > 1 {
      assert IsPath(g, p[..n]);
      PathDescends(g, rank, p[..n]);
    }
  }

  /** A rank excludes cycles. */
  lemma RankedIsAcyclic(g: Graph, rank: map<string, nat>)
    requires Ranked(g, g.Keys, rank)
    ensures !HasCycle(g)
  {
    forall n ensures !Leads(g, n, n) {
      forall p | IsPath(g, p) && |p| >= 2 ensures !(p[0] == n && p[|p| - 1] == n) {
        PathDescends(g, rank, p);
      }
    }
  }

  /** The search state of `visit`: nodes on the current path, and finished nodes. */
  class Search {
    const g: Graph
    var visiting: set<string>
    var visited: set<string>
    ghost var rank: map<string, nat>
    ghost var clock: nat

    constructor (g: Graph)
      ensures this.g == g && visiting == {} && visited == {} && rank == map[]
    {
      this.g, visiting, visited, rank, clock := g, {}, {}, map[], 0;
    }

    ghost predicate Consistent()
      reads this
    {
      && Closed(g) && visiting <= g.Keys && visiting !! visited
      && Ranked(g, visited, rank)
      && forall n :: n in rank ==> rank[n] < clock
    }

    /** `visit`: false stands for raising `dependency_cycle`. The unvisited part of the graph shrinks with every call. */
    method Visit(id: string) returns (ok: bool)
      requires Consistent() && id in g
      requires forall v :: v in visiting ==> Leads(g, v, id)
      modifies this
      ensures ok ==> Consistent() && visiting == old(visiting) && old(visited) <= visited && id in visited
      ensures !ok ==> HasCycle(g)
      decreases g.Keys - visiting
    {
      if id in visiting {
        return false;
      }
      if id in visited {
        return true;
      }
      visiting := visiting + {id};
      var deps := g[id];
      for i := 0 to |deps|
        invariant Consistent() && visiting == old(visiting) + {id} && old(visited) <= visited
        invariant forall k :: 0 <= k < i ==> deps[k] in visited
      {
        var dep := deps[i];
        assert dep in g[id] && dep in g;
        forall v | v in visiting ensures Leads(g, v, dep) {
          if v == id {
            EdgeLeads(g, id, dep);
          } else {
            LeadsFurther(g, v, id, dep);
          }
        }
        var found := Visit(dep);
        if !found {
          return false;
        }
      }
      visiting := visiting - {id};
      visited := visited + {id};
      rank := rank[id := clock];
      clock := clock + 1;
      return true;
    }
  }

  /** The check over all nodes, in any listing of them. */
  method CheckAcyclic(g: Graph, listing: seq<string>) returns (ok: bool, ghost rank: map<string, nat>)
    requires Closed(g) && forall n :: n in g <==> n in listing
    ensures ok <==> !HasCycle(g)
    ensures ok ==> Ranked(g, g.Keys, rank)
  {
    rank := map[];
    var search := new Search(g);
    for i := 0 to |listing|
      invariant search.g == g && search.Consistent() && search.visiting == {}
      invariant forall k :: 0 <= k < i ==> listing[k] in search.visited
    {
      var found := search.Visit(listing[i]);
      if !found {
        return false, rank;
      }
    }
    rank := search.rank;
    assert search.visited == g.Keys;
    RankedIsAcyclic(g, rank);
    return true, rank;
  }
}
