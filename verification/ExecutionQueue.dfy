/** The roadmap queue: what validation accepts, completion with its memo, and the selection of next work. */
module ExecutionQueue {
  import opened Wrappers
  import opened DependencyGraph

  datatype Kind = Group | Checkpoint | Task

  datatype Status = Pending | InProgress | AwaitingCi | NeedsUser | Finished

  /** A node of the queue; groups have no status and no dependencies of their own. */
  datatype Node = Node(kind: Kind, parent: Option<string>, status: Status, dependsOn: seq<string>, finishDependsOn: seq<string>)

  datatype Error = InvalidSchema | DependencyCycle | DependenciesUnfinished | InvalidOptions

  /** `order` is the order of the nodes in the file. */
  datatype Plan = Plan(order: seq<string>, nodes: map<string, Node>)

  // ---------------------------------------------------------------- completion

  /** What completion depends on: who leads to whom, which nodes are groups, and which other nodes are marked done. */
  datatype Outline = Outline(g: Graph, groups: set<string>, finished: set<string>)

  ghost predicate Acyclic(o: Outline, rank: map<string, nat>) {
    Ranked(o.g, o.g.Keys, rank)
  }

  /** The plain definition: a group is done when all its children are, any other node when its status says so. */
  ghost predicate IsDone(o: Outline, rank: map<string, nat>, n: string)
    requires Acyclic(o, rank) && n in o.g
    decreases rank[n]
  {
    if n in o.groups then forall c :: c in o.g[n] ==> IsDone(o, rank, c) else n in o.finished
  }

  /** Completion does not depend on which rank shows the graph acyclic. */
  lemma {:induction false} RankIrrelevant(o: Outline, rank: map<string, nat>, other: map<string, nat>, n: string)
    requires Acyclic(o, rank) && Acyclic(o, other) && n in o.g
    ensures IsDone(o, rank, n) == IsDone(o, other, n)
    decreases rank[n]
  {
    forall c | c in o.g[n] ensures IsDone(o, rank, c) == IsDone(o, other, c) {
      RankIrrelevant(o, rank, other, c);
    }
  }

  /** Every one of these nodes is done. */
  ghost predicate AllDone(o: Outline, rank: map<string, nat>, ns: seq<string>)
    requires Acyclic(o, rank)
  {
    forall d :: d in ns ==> d in o.g && IsDone(o, rank, d)
  }

  lemma AllDoneEither(o: Outline, rank: map<string, nat>, other: map<string, nat>, ns: seq<string>)
    requires Acyclic(o, rank) && Acyclic(o, other)
    ensures AllDone(o, rank, ns) == AllDone(o, other, ns)
  {
    forall d | d in ns && d in o.g ensures IsDone(o, rank, d) == IsDone(o, other, d) {
      RankIrrelevant(o, rank, other, d);
    }
  }

  /** Nodes marked done lead only to nodes that are done. */
  ghost predicate Honest(o: Outline, rank: map<string, nat>)
    requires Acyclic(o, rank)
  {
    forall n :: n in o.g && n !in o.groups && n in o.finished ==> AllDone(o, rank, o.g[n])
  }

  lemma DoneStep(o: Outline, rank: map<string, nat>, n: string, d: string)
    requires Acyclic(o, rank) && Honest(o, rank) && n in o.g && IsDone(o, rank, n) && d in o.g[n]
    ensures d in o.g && IsDone(o, rank, d)
  {
    if n !in o.groups {
      assert AllDone(o, rank, o.g[n]);
    }
  }

  /** Everything that a finished node leads to, over any number of edges, is finished. */
  lemma {:induction false} DoneIsClosed(o: Outline, rank: map<string, nat>, path: seq<string>)
    requires Acyclic(o, rank) && Honest(o, rank) && IsPath(o.g, path) && IsDone(o, rank, path[0])
    ensures path[|path| - 1] in o.g && IsDone(o, rank, path[|path| - 1])
  {
    if |path| > 1 {
      var n := |path| - 1;
      assert IsPath(o.g, path[..n]);
      DoneIsClosed(o, rank, path[..n]);
      DoneStep(o, rank, path[n - 1], path[n]);
    }
  }

  /** Below every unfinished node there is one whose own edges all lead to finished nodes. */
  lemma {:induction false} LeastUnfinished(o: Outline, rank: map<string, nat>, n: string) returns (m: string)
    requires Acyclic(o, rank) && n in o.g && !IsDone(o, rank, n)
    ensures m in o.g && !IsDone(o, rank, m) && AllDone(o, rank, o.g[m])
    decreases rank[n]
  {
    if d :| d in o.g[n] && !IsDone(o, rank, d) {
      m := LeastUnfinished(o, rank, d);
    } else {
      m := n;
    }
  }

  // ---------------------------------------------------------------- plans

  function Filter(xs: seq<string>, keep: string -> bool): (r: seq<string>)
    ensures forall x :: x in r <==> x in xs && keep(x)
  {
    if xs == [] then []
    else
      var n := |xs| - 1;
      assert xs == xs[..n] + [xs[n]];
      Filter(xs[..n], keep) + if keep(xs[n]) then [xs[n]] else []
  }

  predicate IsChild(p: Plan, group: string, n: string) {
    n in p.nodes && p.nodes[n].parent == Some(group)
  }

  function Children(p: Plan, group: string): (r: seq<string>)
    ensures forall n :: n in r <==> n in p.order && IsChild(p, group, n)
  {
    Filter(p.order, n => IsChild(p, group, n))
  }

  /** Group membership participates in the graph: a group leads to its children, other nodes to their dependencies. */
  function Edges(p: Plan): (g: Graph)
    ensures g.Keys == p.nodes.Keys
    ensures forall n :: n in p.nodes ==> g[n] == if p.nodes[n].kind == Group then Children(p, n) else Dependencies(p.nodes[n], true)
  {
    map n | n in p.nodes :: if p.nodes[n].kind == Group then Children(p, n) else Dependencies(p.nodes[n], true)
  }

  function Dependencies(node: Node, finishing: bool): seq<string> {
    node.dependsOn + if finishing then node.finishDependsOn else []
  }

  ghost function OutlineOf(p: Plan): Outline {
    Outline(Edges(p), set n | n in p.nodes && p.nodes[n].kind == Group, set n | n in p.nodes && p.nodes[n].status == Finished)
  }

  /** Known references, a parent that is a group, and a finished status on checkpoints. */
  ghost predicate NodeOk(p: Plan, node: Node) {
    && (node.parent.Some? ==> node.parent.value in p.nodes && p.nodes[node.parent.value].kind == Group)
    && (forall d :: d in Dependencies(node, true) ==> d in p.nodes)
    && (node.kind == Checkpoint ==> node.status == Finished)
  }

  /** What the field checks guarantee. */
  ghost predicate WellFormed(p: Plan) {
    && (forall n :: n in p.nodes <==> n in p.order)
    && (forall i, j :: 0 <= i < j < |p.order| ==> p.order[i] != p.order[j])
    && (forall n {:trigger NodeOk(p, p.nodes[n])} :: n in p.nodes ==> NodeOk(p, p.nodes[n]))
  }

  lemma EdgesClosed(p: Plan)
    requires WellFormed(p)
    ensures Closed(Edges(p))
  {
    forall n, d | n in p.nodes && d in Edges(p)[n] ensures d in p.nodes {
      assert NodeOk(p, p.nodes[n]);
    }
  }

  predicate Underway(s: Status) { s == InProgress || s == AwaitingCi || s == Finished }

  /** A node that is underway or finished waits for nothing unfinished, at its stage. */
  ghost predicate StartedProperly(p: Plan, rank: map<string, nat>, n: string)
    requires Acyclic(OutlineOf(p), rank) && n in p.nodes
  {
    p.nodes[n].kind != Group && Underway(p.nodes[n].status) ==>
      AllDone(OutlineOf(p), rank, Dependencies(p.nodes[n], p.nodes[n].status == Finished))
  }

  /** What validation accepts beyond the field checks. */
  ghost predicate Accepted(p: Plan, rank: map<string, nat>) {
    && WellFormed(p) && Acyclic(OutlineOf(p), rank)
    && (forall n :: n in p.nodes && p.nodes[n].kind == Group ==> Edges(p)[n] != [])
    && (forall n {:trigger StartedProperly(p, rank, n)} :: n in p.nodes ==> StartedProperly(p, rank, n))
  }

  lemma AcceptedIsHonest(p: Plan, rank: map<string, nat>)
    requires Accepted(p, rank)
    ensures Honest(OutlineOf(p), rank)
  {
    var o := OutlineOf(p);
    forall n | n in o.g && n !in o.groups && n in o.finished ensures AllDone(o, rank, o.g[n]) {
      assert StartedProperly(p, rank, n);
    }
  }

  /** In an accepted queue everything that a finished node leads to is finished. */
  lemma FinishedLeadsToFinished(p: Plan, rank: map<string, nat>, path: seq<string>)
    requires Accepted(p, rank) && IsPath(Edges(p), path) && IsDone(OutlineOf(p), rank, path[0])
    ensures path[|path| - 1] in p.nodes && IsDone(OutlineOf(p), rank, path[|path| - 1])
  {
    AcceptedIsHonest(p, rank);
    DoneIsClosed(OutlineOf(p), rank, path);
  }

  ghost predicate IsReady(p: Plan, rank: map<string, nat>, n: string)
    requires Acyclic(OutlineOf(p), rank)
  {
    n in p.nodes && p.nodes[n].kind == Task && p.nodes[n].status == Pending
    && AllDone(OutlineOf(p), rank, Dependencies(p.nodes[n], false))
  }

  lemma FewerDone(o: Outline, rank: map<string, nat>, ns: seq<string>, fewer: seq<string>)
    requires Acyclic(o, rank) && AllDone(o, rank, ns) && forall d :: d in fewer ==> d in ns
    ensures AllDone(o, rank, fewer)
  {}

  /** The plan is never stuck: while some node is unfinished, some task is underway, waits for the user, or is ready. */
  lemma NeverStuck(p: Plan, rank: map<string, nat>, n: string) returns (m: string)
    requires Accepted(p, rank) && n in p.nodes && !IsDone(OutlineOf(p), rank, n)
    ensures m in p.nodes && p.nodes[m].kind == Task
    ensures p.nodes[m].status == InProgress || p.nodes[m].status == AwaitingCi || p.nodes[m].status == NeedsUser
            || IsReady(p, rank, m)
  {
    m := LeastUnfinished(OutlineOf(p), rank, n);
    assert NodeOk(p, p.nodes[m]);
    assert m !in OutlineOf(p).groups;
    FewerDone(OutlineOf(p), rank, Dependencies(p.nodes[m], true), Dependencies(p.nodes[m], false));
  }

  // ---------------------------------------------------------------- ancestors

  lemma ParentRanksHigher(p: Plan, rank: map<string, nat>, n: string)
    requires WellFormed(p) && Acyclic(OutlineOf(p), rank) && n in p.nodes && p.nodes[n].parent.Some?
    ensures p.nodes[n].parent.value in p.nodes && rank[n] < rank[p.nodes[n].parent.value]
  {
    assert NodeOk(p, p.nodes[n]);
    var parent := p.nodes[n].parent.value;
    assert IsChild(p, parent, n);
    assert n in Edges(p)[parent];
  }

  ghost function Above(rank: map<string, nat>, n: string): set<string>
    requires n in rank
  {
    set m | m in rank && rank[m] > rank[n]
  }

  lemma AboveShrinks(rank: map<string, nat>, n: string, parent: string)
    requires n in rank && parent in rank && rank[n] < rank[parent]
    ensures Above(rank, parent) < Above(rank, n)
  {
    assert parent in Above(rank, n) && parent !in Above(rank, parent);
  }

  /** `group` is an ancestor of `n`. */
  ghost predicate Under(p: Plan, rank: map<string, nat>, n: string, group: string)
    requires WellFormed(p) && Acyclic(OutlineOf(p), rank) && n in p.nodes
    decreases Above(rank, n)
  {
    p.nodes[n].parent.Some? &&
    var parent := p.nodes[n].parent.value;
    ParentRanksHigher(p, rank, n);
    AboveShrinks(rank, n, parent);
    parent == group || Under(p, rank, parent, group)
  }
}
