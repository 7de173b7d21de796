/** The `Queue` object with its memo, validation, and the selection of next work, carried out step by step. */
module QueueModel {
  import opened Wrappers
  import opened DependencyGraph
  import opened ExecutionQueue
  import opened QueueFields

  /** What the methods use of one node. */
  ghost predicate Link(plan: Plan, o: Outline, children: map<string, seq<string>>, n: string)
    requires n in plan.nodes
  {
    var node := plan.nodes[n];
    && n in o.g && (n in o.groups <==> node.kind == Group) && (n in o.finished <==> node.status == Finished)
    && (node.kind == Group ==> n in children && children[n] == o.g[n])
    && (forall d :: d in Dependencies(node, true) ==> d in o.g)
  }

  lemma LinkHolds(plan: Plan, children: map<string, seq<string>>, n: string)
    requires WellFormed(plan) && n in plan.nodes && n in children && children[n] == Children(plan, n)
    ensures Link(plan, OutlineOf(plan), children, n)
  {
    assert NodeOk(plan, plan.nodes[n]);
  }

  /** Every remembered answer is the one the plain definition gives. */
  ghost predicate MemoOk(o: Outline, rank: map<string, nat>, done: map<string, bool>)
    requires Acyclic(o, rank)
  {
    forall n {:trigger done[n]} :: n in done ==> n in o.g && done[n] == IsDone(o, rank, n)
  }

  /** The unfinished ones among these nodes, in order and with repetitions. */
  ghost function Unfinished(o: Outline, rank: map<string, nat>, deps: seq<string>): (r: seq<string>)
    requires Acyclic(o, rank)
    ensures forall d :: d in r <==> d in deps && !AllDone(o, rank, [d])
  {
    if deps == [] then []
    else
      var n := |deps| - 1;
      assert deps == deps[..n] + [deps[n]];
      Unfinished(o, rank, deps[..n]) + if AllDone(o, rank, [deps[n]]) then [] else [deps[n]]
  }

  class Queue {
    const plan: Plan
    ghost const outline: Outline
    ghost const rank: map<string, nat>
    const children: map<string, seq<string>>
    var done: map<string, bool>

    ghost predicate Ready() {
      && Acyclic(outline, rank) && outline.g.Keys == plan.nodes.Keys
      && forall n {:trigger Link(plan, outline, children, n)} :: n in plan.nodes ==> Link(plan, outline, children, n)
    }

    ghost predicate Valid()
      reads this
    {
      Ready() && MemoOk(outline, rank, done)
    }

    constructor (plan: Plan, ghost rank: map<string, nat>)
      requires WellFormed(plan) && Acyclic(OutlineOf(plan), rank)
      ensures this.plan == plan && this.rank == rank && outline == OutlineOf(plan) && Valid()
    {
      this.plan, this.rank, outline, done := plan, rank, OutlineOf(plan), map[];
      children := map n | n in plan.nodes :: Children(plan, n);
      new;
      forall n | n in plan.nodes ensures Link(plan, outline, children, n) {
        LinkHolds(plan, children, n);
      }
    }

    /** `is_done`: answers from the memo, or computes, stopping at the first unfinished child. */
    method Completed(n: string) returns (b: bool)
      requires Valid() && n in plan.nodes
      modifies this`done
      ensures Valid() && b == IsDone(outline, rank, n)
      decreases rank[n], 1
    {
      if n !in done {
        assert Link(plan, outline, children, n);
        var answer := plan.nodes[n].status == Finished;
        if plan.nodes[n].kind == Group {
          answer := AllCompleted(n);
        }
        done := done[n := answer];
      }
      b := done[n];
    }

    method AllCompleted(n: string) returns (b: bool)
      requires Valid() && n in plan.nodes && plan.nodes[n].kind == Group
      modifies this`done
      ensures Valid() && b == IsDone(outline, rank, n)
      decreases rank[n], 0
    {
      assert Link(plan, outline, children, n);
      var cs := children[n];
      b := true;
      for i := 0 to |cs|
        invariant Valid() && b
        invariant forall k :: 0 <= k < i ==> cs[k] in outline.g && IsDone(outline, rank, cs[k])
      {
        assert cs[i] in outline.g[n];
        b := Completed(cs[i]);
        if !b {
          return;
        }
      }
    }

    /** `blockers`: the unfinished dependencies. */
    method Blockers(n: string, finishing: bool) returns (r: seq<string>)
      requires Valid() && n in plan.nodes
      modifies this`done
      ensures Valid()
      ensures r == Unfinished(outline, rank, plan.nodes[n].dependsOn + if finishing then plan.nodes[n].finishDependsOn else [])
      ensures r == [] <==> AllDone(outline, rank, Dependencies(plan.nodes[n], finishing))
    {
      assert Link(plan, outline, children, n);
      var deps := Dependencies(plan.nodes[n], finishing);
      assert forall d :: d in deps ==> d in Dependencies(plan.nodes[n], true);
      r := StillOpen(deps);
      BlockersDecide(outline, rank, deps, r);
    }

    method StillOpen(deps: seq<string>) returns (r: seq<string>)
      requires Valid() && forall d :: d in deps ==> d in outline.g
      modifies this`done
      ensures Valid() && r == Unfinished(outline, rank, deps)
    {
      r := [];
      for i := 0 to |deps|
        invariant Valid()
        invariant r == Unfinished(outline, rank, deps[..i])
      {
        assert deps[..i + 1][..i] == deps[..i];
        assert deps[i] in deps && deps[i] in plan.nodes;
        var b := Completed(deps[i]);
        SingleDone(outline, rank, deps[i]);
        if !b {
          r := r + [deps[i]];
        }
      }
      assert deps[..|deps|] == deps;
    }

    /** Whether a node lies under the group: the loop that climbs through the parents ends because ranks rise. */
    method Inside(n: string, group: string) returns (b: bool)
      requires WellFormed(plan) && Acyclic(OutlineOf(plan), rank) && n in plan.nodes
      ensures b <==> Under(plan, rank, n, group)
    {
      var at := n;
      while plan.nodes[at].parent.Some?
        invariant at in plan.nodes
        invariant Under(plan, rank, n, group) <==> Under(plan, rank, at, group)
        decreases Above(rank, at)
      {
        var parent := plan.nodes[at].parent.value;
        ParentRanksHigher(plan, rank, at);
        AboveShrinks(rank, at, parent);
        if parent == group {
          return true;
        }
        at := parent;
      }
      return false;
    }
  }

  lemma SingleDone(o: Outline, rank: map<string, nat>, d: string)
    requires Acyclic(o, rank) && d in o.g
    ensures AllDone(o, rank, [d]) == IsDone(o, rank, d)
  {
    assert d in [d];
  }

  lemma BlockersDecide(o: Outline, rank: map<string, nat>, deps: seq<string>, r: seq<string>)
    requires Acyclic(o, rank) && forall d :: d in r <==> d in deps && !AllDone(o, rank, [d])
    ensures r == [] <==> AllDone(o, rank, deps)
  {
    if r == [] {
      forall d | d in deps ensures d in o.g && IsDone(o, rank, d) {
        assert d !in r;
        assert d in [d];
      }
    } else {
      assert r[0] in deps && !AllDone(o, rank, [r[0]]);
    }
  }

  // ---------------------------------------------------------------- validation

  /**
   The graph part of `validate_queue`, on nodes whose fields passed. A cycle is reported exactly when there is one, and
   the remaining refusal exactly when some node was started or finished too early.
   */
  method ValidateQueue(p: Plan) returns (r: Result<Queue, Error>, ghost rank: map<string, nat>)
    requires WellFormed(p)
    ensures r == Failure(InvalidSchema) <==> exists n :: Childless(p, n)
    ensures r == Failure(DependencyCycle) <==> Circular(p) && forall n :: !Childless(p, n)
    ensures r == Failure(DependenciesUnfinished) ==> Acyclic(OutlineOf(p), rank) && exists n, d :: TooEarly(p, rank, n, d)
    ensures r.Success? ==> Acyclic(OutlineOf(p), rank) && forall n, d :: !TooEarly(p, rank, n, d)
    ensures r.Success? ==> r.value.Valid() && r.value.plan == p && r.value.rank == rank && r.value.outline == OutlineOf(p)
    ensures r.Success? ==> Accepted(p, rank)
    ensures r.Failure? ==> r.error in {InvalidSchema, DependencyCycle, DependenciesUnfinished} && forall other :: !Accepted(p, other)
  {
    rank := map[];
    NoneChildless(p);
    CycleMeans(p);
    if HasEmptyGroup(p) {
      return Failure(InvalidSchema), rank;
    }
    EdgesClosed(p);
    var ok;
    ok, rank := CheckAcyclic(Edges(p), p.order);
    if !ok {
      CycleNotAccepted(p);
      return Failure(DependencyCycle), rank;
    }
    r := AcceptStarted(p, rank);
    AcceptedMeans(p, rank);
  }

  /** The last part of the validation, on an acyclic graph. */
  method AcceptStarted(p: Plan, ghost rank: map<string, nat>) returns (r: Result<Queue, Error>)
    requires WellFormed(p) && Acyclic(OutlineOf(p), rank) && !HasEmptyGroup(p)
    ensures r.Failure? ==> r.error == DependenciesUnfinished && forall other :: !Accepted(p, other)
    ensures r.Success? ==>
              && r.value.Valid() && r.value.plan == p && r.value.rank == rank && r.value.outline == OutlineOf(p)
              && Accepted(p, rank)
  {
    var model := new Queue(p, rank);
    var bad := StartedEarly(model);
    if bad.Some? {
      NotAccepted(p, rank, bad.value);
      return Failure(DependenciesUnfinished);
    }
    AllStarted(p, rank);
    return Success(model);
  }

  lemma AllStarted(p: Plan, rank: map<string, nat>)
    requires WellFormed(p) && Acyclic(OutlineOf(p), rank) && !HasEmptyGroup(p)
    requires StartedProperlyUpTo(p, rank, |p.order|)
    ensures Accepted(p, rank)
  {
    forall n | n in p.nodes ensures StartedProperly(p, rank, n) {
      var i :| 0 <= i < |p.order| && p.order[i] == n;
      assert StartedProperly(p, rank, p.order[i]);
    }
  }

  predicate HasEmptyGroup(p: Plan) {
    exists n :: n in p.nodes && p.nodes[n].kind == Group && Edges(p)[n] == []
  }

  lemma CycleNotAccepted(p: Plan)
    requires HasCycle(Edges(p))
    ensures forall other :: !Accepted(p, other)
  {
    forall other ensures !Accepted(p, other) {
      if Ranked(Edges(p), Edges(p).Keys, other) {
        RankedIsAcyclic(Edges(p), other);
      }
    }
  }

  /** The check on one node: underway or finished only without blockers at its stage. */
  method CheckStarted(queue: Queue, n: string) returns (ok: bool)
    requires queue.Valid() && queue.outline == OutlineOf(queue.plan) && n in queue.plan.nodes
    modifies queue`done
    ensures queue.Valid() && ok == StartedProperly(queue.plan, queue.rank, n)
  {
    var node := queue.plan.nodes[n];
    ok := true;
    if node.kind != Group && Underway(node.status) {
      var blockers := queue.Blockers(n, node.status == Finished);
      ok := blockers == [];
    }
  }

  /** The first `i` nodes of the file were not started too early. */
  ghost predicate StartedProperlyUpTo(p: Plan, rank: map<string, nat>, i: nat)
    requires Acyclic(OutlineOf(p), rank) && i <= |p.order| && forall k :: 0 <= k < |p.order| ==> p.order[k] in p.nodes
  {
    forall k {:trigger StartedProperly(p, rank, p.order[k])} :: 0 <= k < i ==> StartedProperly(p, rank, p.order[k])
  }

  /** The last pass over all nodes; `bad` is the first that was started too early. */
  method StartedEarly(queue: Queue) returns (bad: Option<string>)
    requires queue.Valid() && queue.outline == OutlineOf(queue.plan)
    requires forall k :: 0 <= k < |queue.plan.order| ==> queue.plan.order[k] in queue.plan.nodes
    modifies queue`done
    ensures queue.Valid()
    ensures bad.None? ==> StartedProperlyUpTo(queue.plan, queue.rank, |queue.plan.order|)
    ensures bad.Some? ==> bad.value in queue.plan.nodes && !StartedProperly(queue.plan, queue.rank, bad.value)
  {
    var i := 0;
    while i < |queue.plan.order|
      invariant 0 <= i <= |queue.plan.order| && queue.Valid()
      invariant StartedProperlyUpTo(queue.plan, queue.rank, i)
    {
      var n := queue.plan.order[i];
      var ok := CheckStarted(queue, n);
      if !ok {
        return Some(n);
      }
      OneMoreStarted(queue.plan, queue.rank, i);
      i := i + 1;
    }
    return None;
  }

  lemma OneMoreStarted(p: Plan, rank: map<string, nat>, i: nat)
    requires Acyclic(OutlineOf(p), rank) && i < |p.order| && forall k :: 0 <= k < |p.order| ==> p.order[k] in p.nodes
    requires StartedProperlyUpTo(p, rank, i) && StartedProperly(p, rank, p.order[i])
    ensures StartedProperlyUpTo(p, rank, i + 1)
  {}

  lemma NotAccepted(p: Plan, rank: map<string, nat>, n: string)
    requires Acyclic(OutlineOf(p), rank) && n in p.nodes && !StartedProperly(p, rank, n)
    ensures forall other :: !Accepted(p, other)
  {
    forall other ensures !Accepted(p, other) {
      if Acyclic(OutlineOf(p), other) {
        AllDoneEither(OutlineOf(p), rank, other, Dependencies(p.nodes[n], p.nodes[n].status == Finished));
        assert !StartedProperly(p, other, n);
      }
    }
  }

  // ---------------------------------------------------------------- next work

  /** The lists of `next_actions` without a group filter: the active, waiting and user rows, and the first ready ones. */
  datatype Actions = Actions(active: seq<string>, awaitingCi: seq<string>, needsUser: seq<string>, ready: seq<string>)

  predicate IsTaskWith(p: Plan, n: string, s: Status) {
    n in p.nodes && p.nodes[n].kind == Task && p.nodes[n].status == s
  }

  /** The tasks with one status, in file order. */
  function Select(p: Plan, s: Status): (r: seq<string>)
    ensures forall n :: n in r <==> n in p.order && IsTaskWith(p, n, s)
  {
    Filter(p.order, n => IsTaskWith(p, n, s))
  }

  /** A pending task without blockers. */
  ghost predicate Startable(p: Plan, o: Outline, rank: map<string, nat>, n: string)
    requires Acyclic(o, rank)
  {
    IsTaskWith(p, n, Pending) && AllDone(o, rank, Dependencies(p.nodes[n], false))
  }

  /** The pending tasks without blockers among these, in order. */
  ghost function Startables(p: Plan, o: Outline, rank: map<string, nat>, tasks: seq<string>): (r: seq<string>)
    requires Acyclic(o, rank)
    ensures forall n :: n in r <==> n in tasks && Startable(p, o, rank, n)
  {
    if tasks == [] then []
    else
      var n := |tasks| - 1;
      assert tasks == tasks[..n] + [tasks[n]];
      Startables(p, o, rank, tasks[..n]) + if Startable(p, o, rank, tasks[n]) then [tasks[n]] else []
  }

  /** All ready tasks, in file order. */
  ghost function ReadyOnes(p: Plan, o: Outline, rank: map<string, nat>): (r: seq<string>)
    requires Acyclic(o, rank)
    ensures forall n :: n in r <==> n in p.order && Startable(p, o, rank, n)
  {
    Startables(p, o, rank, Select(p, Pending))
  }

  method ReadyTasks(queue: Queue) returns (ready: seq<string>)
    requires queue.Valid()
    modifies queue`done
    ensures queue.Valid()
    ensures ready == ReadyOnes(queue.plan, queue.outline, queue.rank)
  {
    var pending := Select(queue.plan, Pending);
    ready := [];
    for i := 0 to |pending|
      invariant queue.Valid()
      invariant ready == Startables(queue.plan, queue.outline, queue.rank, pending[..i])
    {
      var n := pending[i];
      assert n in pending && pending[..i + 1][..i] == pending[..i];
      var blockers := queue.Blockers(n, false);
      if blockers == [] {
        ready := ready + [n];
      }
    }
    assert pending[..|pending|] == pending;
  }

  method NextActions(queue: Queue, limit: int) returns (r: Result<Actions, Error>)
    requires queue.Valid()
    modifies queue`done
    ensures queue.Valid()
    ensures r.Failure? <==> !(1 <= limit <= 50)
    ensures r.Success? ==>
              && r.value.active == Select(queue.plan, InProgress) && r.value.awaitingCi == Select(queue.plan, AwaitingCi)
              && r.value.needsUser == Select(queue.plan, NeedsUser)
              && var all := ReadyOnes(queue.plan, queue.outline, queue.rank);
                 r.value.ready == if |all| <= limit then all else all[..limit]
  {
    if limit < 1 || limit > 50 {
      return Failure(InvalidOptions);
    }
    var p := queue.plan;
    var ready := ReadyTasks(queue);
    return Success(Actions(Select(p, InProgress), Select(p, AwaitingCi), Select(p, NeedsUser),
                           if |ready| <= limit then ready else ready[..limit]));
  }

  /** While a task of an accepted queue is unfinished, `next_actions` shows at least one row in some list. */
  method NextActionsShowWork(queue: Queue, limit: int, n: string) returns (a: Actions)
    requires queue.Valid() && queue.outline == OutlineOf(queue.plan)
    requires Accepted(queue.plan, queue.rank) && 1 <= limit <= 50 && n in queue.plan.nodes
    requires queue.plan.nodes[n].kind == Task && queue.plan.nodes[n].status != Finished
    modifies queue`done
    ensures queue.Valid()
    ensures a.active != [] || a.awaitingCi != [] || a.needsUser != [] || a.ready != []
  {
    var r := NextActions(queue, limit);
    a := r.value;
    WorkIsListed(queue.plan, queue.rank, n);
    ListsShowWork(queue.plan, queue.outline, queue.rank, limit, a);
  }

  lemma SomeWork(p: Plan, rank: map<string, nat>, n: string) returns (m: string)
    requires Accepted(p, rank) && n in p.nodes && p.nodes[n].kind == Task && p.nodes[n].status != Finished
    ensures m in p.order
    ensures IsTaskWith(p, m, InProgress) || IsTaskWith(p, m, AwaitingCi) || IsTaskWith(p, m, NeedsUser)
            || Startable(p, OutlineOf(p), rank, m)
  {
    m := NeverStuck(p, rank, n);
  }

  lemma ListsShowWork(p: Plan, o: Outline, rank: map<string, nat>, limit: nat, a: Actions)
    requires Acyclic(o, rank) && limit > 0
    requires a.active == Select(p, InProgress) && a.awaitingCi == Select(p, AwaitingCi) && a.needsUser == Select(p, NeedsUser)
    requires var all := ReadyOnes(p, o, rank); a.ready == if |all| <= limit then all else all[..limit]
    requires Select(p, InProgress) != [] || Select(p, AwaitingCi) != [] || Select(p, NeedsUser) != [] || ReadyOnes(p, o, rank) != []
    ensures a.active != [] || a.awaitingCi != [] || a.needsUser != [] || a.ready != []
  {}

  lemma WorkIsListed(p: Plan, rank: map<string, nat>, n: string)
    requires Accepted(p, rank) && n in p.nodes && p.nodes[n].kind == Task && p.nodes[n].status != Finished
    ensures Select(p, InProgress) != [] || Select(p, AwaitingCi) != [] || Select(p, NeedsUser) != []
            || ReadyOnes(p, OutlineOf(p), rank) != []
  {
    var m := SomeWork(p, rank, n);
    assert m in Select(p, InProgress) || m in Select(p, AwaitingCi) || m in Select(p, NeedsUser)
           || m in ReadyOnes(p, OutlineOf(p), rank);
  }

  // ---------------------------------------------------------------- what the rows are

  /** A ready row is a pending task of the file whose `dependsOn` are all done, whatever it needs to be finished. */
  lemma ReadyMeans(p: Plan, rank: map<string, nat>, n: string)
    requires Acyclic(OutlineOf(p), rank)
    ensures n in ReadyOnes(p, OutlineOf(p), rank) <==>
            && n in p.order && n in p.nodes && p.nodes[n].kind == Task && p.nodes[n].status == Pending
            && forall d :: d in p.nodes[n].dependsOn ==> Done(p, rank, d)
  {
    if n in p.nodes {
      AllDoneMeans(p, rank, Dependencies(p.nodes[n], false));
    }
  }

  /** The other rows are the tasks of the file with their status. */
  lemma SelectMeans(p: Plan, s: Status, n: string)
    ensures n in Select(p, s) <==> n in p.order && n in p.nodes && p.nodes[n].kind == Task && p.nodes[n].status == s
  {}

  /** Each element of the first list comes from its own position of the second, in the same order. */
  ghost predicate InOrderOf(r: seq<string>, xs: seq<string>, at: seq<nat>) {
    && |at| == |r| && (forall i :: 0 <= i < |r| ==> at[i] < |xs| && xs[at[i]] == r[i])
    && forall i, j :: 0 <= i < j < |r| ==> at[i] < at[j]
  }

  lemma {:induction false} FilterInOrder(xs: seq<string>, keep: string -> bool) returns (at: seq<nat>)
    ensures InOrderOf(Filter(xs, keep), xs, at)
  {
    if xs == [] {
      at := [];
    } else {
      var n := |xs| - 1;
      at := FilterInOrder(xs[..n], keep);
      if keep(xs[n]) {
        at := at + [n];
      }
    }
  }

  lemma {:induction false} StartablesInOrder(p: Plan, o: Outline, rank: map<string, nat>, tasks: seq<string>) returns (at: seq<nat>)
    requires Acyclic(o, rank)
    ensures InOrderOf(Startables(p, o, rank, tasks), tasks, at)
  {
    if tasks == [] {
      at := [];
    } else {
      var n := |tasks| - 1;
      at := StartablesInOrder(p, o, rank, tasks[..n]);
      if Startable(p, o, rank, tasks[n]) {
        at := at + [n];
      }
    }
  }

  lemma InOrderTwice(r: seq<string>, xs: seq<string>, ys: seq<string>, at: seq<nat>, of: seq<nat>) returns (through: seq<nat>)
    requires InOrderOf(r, xs, at) && InOrderOf(xs, ys, of)
    ensures InOrderOf(r, ys, through)
  {
    through := seq(|at|, i requires 0 <= i < |at| => of[at[i]]);
  }

  /** All rows are shown in the order of the file. */
  lemma RowsInFileOrder(p: Plan, o: Outline, rank: map<string, nat>, s: Status) returns (rows: seq<nat>, ready: seq<nat>)
    requires Acyclic(o, rank)
    ensures InOrderOf(Select(p, s), p.order, rows) && InOrderOf(ReadyOnes(p, o, rank), p.order, ready)
  {
    rows := FilterInOrder(p.order, n => IsTaskWith(p, n, s));
    var pending := FilterInOrder(p.order, n => IsTaskWith(p, n, Pending));
    var at := StartablesInOrder(p, o, rank, Select(p, Pending));
    ready := InOrderTwice(ReadyOnes(p, o, rank), Select(p, Pending), p.order, at, pending);
  }

  lemma CopiesSnoc(xs: seq<string>, x: string, d: string)
    ensures multiset(xs + [x])[d] == multiset(xs)[d] + if x == d then 1 else 0
  {}

  lemma UnfinishedSnoc(o: Outline, rank: map<string, nat>, deps: seq<string>, x: string)
    requires Acyclic(o, rank)
    ensures Unfinished(o, rank, deps + [x]) == Unfinished(o, rank, deps) + if AllDone(o, rank, [x]) then [] else [x]
  {
    assert (deps + [x])[..|deps|] == deps;
  }

  /** Each unfinished dependency is listed as often as it is named. */
  lemma {:induction false} UnfinishedCopies(o: Outline, rank: map<string, nat>, deps: seq<string>, d: string)
    requires Acyclic(o, rank)
    ensures multiset(Unfinished(o, rank, deps))[d] == if AllDone(o, rank, [d]) then 0 else multiset(deps)[d]
  {
    if deps != [] {
      var front, x := deps[..|deps| - 1], deps[|deps| - 1];
      assert deps == front + [x];
      UnfinishedCopies(o, rank, front, d);
      UnfinishedSnoc(o, rank, front, x);
      CopiesSnoc(front, x, d);
      CopiesSnoc(Unfinished(o, rank, front), x, d);
    }
  }

  lemma {:induction false} UnfinishedInOrder(o: Outline, rank: map<string, nat>, deps: seq<string>) returns (at: seq<nat>)
    requires Acyclic(o, rank)
    ensures InOrderOf(Unfinished(o, rank, deps), deps, at)
  {
    if deps == [] {
      at := [];
    } else {
      var n := |deps| - 1;
      at := UnfinishedInOrder(o, rank, deps[..n]);
      if !AllDone(o, rank, [deps[n]]) {
        at := at + [n];
      }
    }
  }
}
