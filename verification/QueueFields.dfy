/** What validation and readiness mean, told by the fields of the nodes alone. */
module QueueFields {
  import opened Wrappers
  import opened DependencyGraph
  import opened ExecutionQueue

  // ---------------------------------------------------------------- the graph

  /** A group points to the nodes that name it as their parent, any other node to both kinds of its dependencies. */
  ghost predicate Points(p: Plan, n: string, m: string) {
    && n in p.nodes && m in p.nodes
    && if p.nodes[n].kind == Group then p.nodes[m].parent == Some(n)
       else m in p.nodes[n].dependsOn || m in p.nodes[n].finishDependsOn
  }

  /** A walk that ends where it began. */
  ghost predicate Circle(p: Plan, walk: seq<string>) {
    && |walk| >= 2 && walk[0] == walk[|walk| - 1]
    && forall i :: 0 <= i < |walk| - 1 ==> Points(p, walk[i], walk[i + 1])
  }

  ghost predicate Circular(p: Plan) {
    exists walk :: Circle(p, walk)
  }

  ghost predicate Childless(p: Plan, n: string) {
    n in p.nodes && p.nodes[n].kind == Group && forall m :: m in p.nodes ==> p.nodes[m].parent != Some(n)
  }

  lemma EdgesMean(p: Plan, n: string, m: string)
    requires WellFormed(p) && n in p.nodes
    ensures m in Edges(p)[n] <==> Points(p, n, m)
  {
    assert NodeOk(p, p.nodes[n]);
    if m in p.nodes {
      assert IsChild(p, n, m) <==> p.nodes[m].parent == Some(n);
    }
  }

  lemma PathIsWalk(p: Plan, walk: seq<string>)
    requires WellFormed(p) && IsPath(Edges(p), walk)
    ensures forall i :: 0 <= i < |walk| - 1 ==> Points(p, walk[i], walk[i + 1])
  {
    forall i | 0 <= i < |walk| - 1 ensures Points(p, walk[i], walk[i + 1]) {
      EdgesMean(p, walk[i], walk[i + 1]);
    }
  }

  lemma WalkIsPath(p: Plan, walk: seq<string>)
    requires WellFormed(p) && |walk| >= 2 && forall i :: 0 <= i < |walk| - 1 ==> Points(p, walk[i], walk[i + 1])
    ensures IsPath(Edges(p), walk)
  {
    forall i | 0 <= i < |walk| ensures walk[i] in Edges(p) {
      if i > 0 {
        assert Points(p, walk[i - 1], walk[i - 1 + 1]);
      } else {
        assert Points(p, walk[0], walk[0 + 1]);
      }
    }
    forall i | 0 <= i < |walk| - 1 ensures walk[i + 1] in Edges(p)[walk[i]] {
      assert Points(p, walk[i], walk[i + 1]);
      EdgesMean(p, walk[i], walk[i + 1]);
    }
  }

  /** The graph has a cycle exactly when some walk along the fields ends where it began. */
  lemma CycleMeans(p: Plan)
    requires WellFormed(p)
    ensures HasCycle(Edges(p)) <==> Circular(p)
  {
    if HasCycle(Edges(p)) {
      var n :| Leads(Edges(p), n, n);
      var walk :| IsPath(Edges(p), walk) && |walk| >= 2 && walk[0] == n && walk[|walk| - 1] == n;
      PathIsWalk(p, walk);
      assert Circle(p, walk);
    }
    if walk :| Circle(p, walk) {
      WalkIsPath(p, walk);
      assert Leads(Edges(p), walk[0], walk[0]);
    }
  }

  lemma ChildlessMeans(p: Plan, n: string)
    requires WellFormed(p) && n in p.nodes && p.nodes[n].kind == Group
    ensures Edges(p)[n] == [] <==> Childless(p, n)
  {
    if Edges(p)[n] != [] {
      EdgesMean(p, n, Edges(p)[n][0]);
    } else {
      forall m | m in p.nodes ensures p.nodes[m].parent != Some(n) {
        EdgesMean(p, n, m);
      }
    }
  }

  // ---------------------------------------------------------------- completion

  /** A node of the plan is done, by the plain definition. */
  ghost predicate Done(p: Plan, rank: map<string, nat>, n: string)
    requires Acyclic(OutlineOf(p), rank)
  {
    n in p.nodes && IsDone(OutlineOf(p), rank, n)
  }

  lemma GroupDone(p: Plan, rank: map<string, nat>, n: string)
    requires Acyclic(OutlineOf(p), rank) && n in p.nodes && p.nodes[n].kind == Group
    ensures Done(p, rank, n) <==> forall m :: m in Edges(p)[n] ==> Done(p, rank, m)
  {
    assert n in OutlineOf(p).groups;
  }

  lemma OtherDone(p: Plan, rank: map<string, nat>, n: string)
    requires Acyclic(OutlineOf(p), rank) && n in p.nodes && p.nodes[n].kind != Group
    ensures Done(p, rank, n) <==> p.nodes[n].status == Finished
  {
    assert n !in OutlineOf(p).groups;
  }

  lemma EdgesOfGroup(p: Plan, n: string)
    requires WellFormed(p) && n in p.nodes && p.nodes[n].kind == Group
    ensures forall m :: m in Edges(p)[n] <==> m in p.nodes && p.nodes[m].parent == Some(n)
  {
    forall m ensures m in Edges(p)[n] <==> m in p.nodes && p.nodes[m].parent == Some(n) {
      EdgesMean(p, n, m);
    }
  }

  /** A group is done when every node that names it as parent is, any other node when it is marked so. */
  lemma DoneMeans(p: Plan, rank: map<string, nat>, n: string)
    requires WellFormed(p) && Acyclic(OutlineOf(p), rank) && n in p.nodes
    ensures Done(p, rank, n) <==>
            if p.nodes[n].kind == Group then forall m :: m in p.nodes && p.nodes[m].parent == Some(n) ==> Done(p, rank, m)
            else p.nodes[n].status == Finished
  {
    if p.nodes[n].kind == Group {
      GroupDone(p, rank, n);
      EdgesOfGroup(p, n);
    } else {
      OtherDone(p, rank, n);
    }
  }

  lemma AllDoneMeans(p: Plan, rank: map<string, nat>, ns: seq<string>)
    requires Acyclic(OutlineOf(p), rank)
    ensures AllDone(OutlineOf(p), rank, ns) <==> forall d :: d in ns ==> Done(p, rank, d)
  {}

  // ---------------------------------------------------------------- starting

  /** Begun, waiting or done although a dependency of `dependsOn` is open, or done although one of `finishDependsOn` is. */
  ghost predicate TooEarly(p: Plan, rank: map<string, nat>, n: string, d: string)
    requires Acyclic(OutlineOf(p), rank)
  {
    && n in p.nodes && p.nodes[n].kind != Group && !Done(p, rank, d)
    && (|| (d in p.nodes[n].dependsOn && p.nodes[n].status in {InProgress, AwaitingCi, Finished})
        || (d in p.nodes[n].finishDependsOn && p.nodes[n].status == Finished))
  }

  lemma StartedMeans(p: Plan, rank: map<string, nat>, n: string)
    requires Acyclic(OutlineOf(p), rank) && n in p.nodes
    ensures StartedProperly(p, rank, n) <==> forall d :: !TooEarly(p, rank, n, d)
  {
    var node := p.nodes[n];
    var deps := Dependencies(node, node.status == Finished);
    AllDoneMeans(p, rank, deps);
    if node.kind != Group && Underway(node.status) {
      if StartedProperly(p, rank, n) {
        forall d ensures !TooEarly(p, rank, n, d) {
          assert d in deps ==> Done(p, rank, d);
        }
      } else {
        var d :| d in deps && !Done(p, rank, d);
        assert TooEarly(p, rank, n, d);
      }
    }
  }

  lemma NoneTooEarly(p: Plan, rank: map<string, nat>)
    requires Acyclic(OutlineOf(p), rank)
    ensures (forall n {:trigger StartedProperly(p, rank, n)} :: n in p.nodes ==> StartedProperly(p, rank, n)) <==>
            forall n, d :: !TooEarly(p, rank, n, d)
  {
    forall n | n in p.nodes ensures StartedProperly(p, rank, n) <==> forall d :: !TooEarly(p, rank, n, d) {
      StartedMeans(p, rank, n);
    }
  }

  lemma NoneChildless(p: Plan)
    requires WellFormed(p)
    ensures (forall n :: n in p.nodes && p.nodes[n].kind == Group ==> Edges(p)[n] != []) <==> forall n :: !Childless(p, n)
  {
    forall n | n in p.nodes && p.nodes[n].kind == Group ensures Edges(p)[n] == [] <==> Childless(p, n) {
      ChildlessMeans(p, n);
    }
  }

  /** Acceptance: no circle, no childless group, and nothing started or finished too early. */
  lemma AcceptedMeans(p: Plan, rank: map<string, nat>)
    requires WellFormed(p) && Acyclic(OutlineOf(p), rank)
    ensures Accepted(p, rank) <==> (forall n :: !Childless(p, n)) && forall n, d :: !TooEarly(p, rank, n, d)
  {
    NoneChildless(p);
    NoneTooEarly(p, rank);
  }
}
