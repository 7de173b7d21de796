/** The gate over the commits of a pull request: progress never goes back along ancestry and the head matches the queue. */
module CommitGate {
  import opened Wrappers
  import opened ProgressTrailers

  /** A commit of the range with the progress its message states. */
  datatype Commit = Commit(id: string, values: Progress, parents: seq<string>)

  datatype Refusal = EmptyRange | Regressed | HeadMismatch

  predicate AtMost(a: Progress, b: Progress) {
    a.queueDone <= b.queueDone && a.queueTotal <= b.queueTotal
    && a.featureDone <= b.featureDone && a.featureTotal <= b.featureTotal
  }

  predicate SequenceRegresses(history: seq<Progress>) {
    exists i :: 0 <= i < |history| - 1 && !AtMost(history[i], history[i + 1])
  }

  /** What `validate_sequence` promises. */
  function JudgeSequence(history: seq<Progress>, expected: Progress): Option<Refusal> {
    if history == [] then Some(EmptyRange)
    else if SequenceRegresses(history) then Some(Regressed)
    else if history[|history| - 1] != expected then Some(HeadMismatch)
    else None
  }

  method ValidateSequence(history: seq<Progress>, expected: Progress) returns (r: Option<Refusal>)
    ensures r == JudgeSequence(history, expected)
  {
    if history == [] {
      return Some(EmptyRange);
    }
    var previous := history[0];
    for i := 1 to |history|
      invariant previous == history[i - 1]
      invariant forall k :: 0 <= k < i - 1 ==> AtMost(history[k], history[k + 1])
    {
      var current := history[i];
      if !AtMost(previous, current) {
        assert !AtMost(history[i - 1], history[i - 1 + 1]);
        return Some(Regressed);
      }
      previous := current;
    }
    if history[|history| - 1] != expected {
      return Some(HeadMismatch);
    }
    return None;
  }

  /** The progress of each commit; a later entry for the same commit wins. */
  function ValuesByCommit(entries: seq<Commit>): map<string, Progress> {
    if entries == [] then map[]
    else
      var n := |entries| - 1;
      ValuesByCommit(entries[..n])[entries[n].id := entries[n].values]
  }

  /** A commit has a value exactly when it lies in the range. */
  lemma {:induction false} KnownCommits(entries: seq<Commit>, id: string)
    ensures id in ValuesByCommit(entries) <==> exists i: nat :: i < |entries| && entries[i].id == id
  {
    if entries != [] {
      var n := |entries| - 1;
      KnownCommits(entries[..n], id);
      assert forall i: nat :: i < n ==> entries[..n][i] == entries[i];
      assert id in ValuesByCommit(entries) <==> id in ValuesByCommit(entries[..n]) || entries[n].id == id;
    }
  }

  /** No parent of the commit that lies in the range is ahead of it. */
  predicate ParentsBehind(known: map<string, Progress>, c: Commit) {
    forall j :: 0 <= j < |c.parents| && c.parents[j] in known ==> AtMost(known[c.parents[j]], c.values)
  }

  predicate GraphRegresses(entries: seq<Commit>) {
    exists i :: 0 <= i < |entries| && !ParentsBehind(ValuesByCommit(entries), entries[i])
  }

  /** What `validate_graph` promises. */
  function JudgeGraph(entries: seq<Commit>, expected: Progress): Option<Refusal> {
    if entries == [] then Some(EmptyRange)
    else if GraphRegresses(entries) then Some(Regressed)
    else if entries[|entries| - 1].values != expected then Some(HeadMismatch)
    else None
  }

  method ValidateGraph(entries: seq<Commit>, expected: Progress) returns (r: Option<Refusal>)
    ensures r == JudgeGraph(entries, expected)
  {
    if entries == [] {
      return Some(EmptyRange);
    }
    var known := ValuesByCommit(entries);
    for i := 0 to |entries|
      invariant forall k :: 0 <= k < i ==> ParentsBehind(known, entries[k])
    {
      var parents := entries[i].parents;
      for j := 0 to |parents|
        invariant forall k :: 0 <= k < j && parents[k] in known ==> AtMost(known[parents[k]], entries[i].values)
      {
        if parents[j] in known && !AtMost(known[parents[j]], entries[i].values) {
          assert !ParentsBehind(known, entries[i]);
          return Some(Regressed);
        }
      }
      assert ParentsBehind(known, entries[i]);
    }
    if entries[|entries| - 1].values != expected {
      return Some(HeadMismatch);
    }
    return None;
  }

  ghost predicate DistinctCommits(entries: seq<Commit>) {
    forall i, j :: 0 <= i < j < |entries| ==> entries[i].id != entries[j].id
  }

  lemma {:induction false} ValueOf(entries: seq<Commit>, i: nat)
    requires DistinctCommits(entries) && i < |entries|
    ensures entries[i].id in ValuesByCommit(entries) && ValuesByCommit(entries)[entries[i].id] == entries[i].values
  {
    var n := |entries| - 1;
    if i < n {
      assert entries[..n][i] == entries[i];
      ValueOf(entries[..n], i);
    }
  }

  /** Indices of commits in the range, each a parent of the one before. */
  ghost predicate Ancestry(entries: seq<Commit>, path: seq<nat>) {
    && path != [] && (forall k :: 0 <= k < |path| ==> path[k] < |entries|)
    && forall k :: 0 <= k < |path| - 1 ==> entries[path[k + 1]].id in entries[path[k]].parents
  }

  /** An accepted range has its progress in order along every ancestor path inside it, however long. */
  lemma {:induction false} MonotoneAlongAncestry(entries: seq<Commit>, expected: Progress, path: seq<nat>)
    requires DistinctCommits(entries) && JudgeGraph(entries, expected).None? && Ancestry(entries, path)
    ensures var first, last := entries[path[|path| - 1]].values, entries[path[0]].values;
            && first.queueDone <= last.queueDone && first.queueTotal <= last.queueTotal
            && first.featureDone <= last.featureDone && first.featureTotal <= last.featureTotal
  {
    if |path| > 1 {
      var c := entries[path[0]];
      assert path[0 + 1] == path[1];
      assert entries[path[0 + 1]].id in c.parents;
      var j :| 0 <= j < |c.parents| && c.parents[j] == entries[path[1]].id;
      assert ParentsBehind(ValuesByCommit(entries), c);
      ValueOf(entries, path[1]);
      var rest := path[1..];
      assert forall k :: 0 <= k < |rest| ==> rest[k] == path[k + 1];
      assert Ancestry(entries, rest);
      MonotoneAlongAncestry(entries, expected, rest);
    }
  }

  /** A history without merges: each commit has the one before it as its only parent, the first one lies outside. */
  ghost predicate Linear(entries: seq<Commit>) {
    && DistinctCommits(entries)
    && (entries != [] ==> forall i, j :: 0 <= i < |entries| && 0 <= j < |entries[0].parents| ==>
          entries[0].parents[j] != entries[i].id)
    && (forall i :: 1 <= i < |entries| ==> entries[i].parents == [entries[i - 1].id])
  }

  function ValuesOf(entries: seq<Commit>): (r: seq<Progress>)
    ensures |r| == |entries| && forall i :: 0 <= i < |entries| ==> r[i] == entries[i].values
  {
    seq(|entries|, i requires 0 <= i < |entries| => entries[i].values)
  }

  lemma OnlyParent(known: map<string, Progress>, c: Commit, parent: string, values: Progress)
    requires c.parents == [parent] && parent in known && known[parent] == values
    ensures ParentsBehind(known, c) == AtMost(values, c.values)
  {
    assert c.parents[0] == parent;
  }

  lemma FirstParents(entries: seq<Commit>)
    requires entries != [] && Linear(entries)
    ensures ParentsBehind(ValuesByCommit(entries), entries[0])
  {
    var known := ValuesByCommit(entries);
    forall j | 0 <= j < |entries[0].parents| ensures entries[0].parents[j] !in known {
      KnownCommits(entries, entries[0].parents[j]);
    }
  }

  lemma ValueIn(entries: seq<Commit>, i: nat, c: Commit, known: map<string, Progress>)
    requires DistinctCommits(entries) && i < |entries| && entries[i] == c && known == ValuesByCommit(entries)
    ensures c.id in known && known[c.id] == c.values
  {
    ValueOf(entries, i);
  }

  lemma LaterParents(entries: seq<Commit>, i: nat, parent: Commit, child: Commit, known: map<string, Progress>)
    requires DistinctCommits(entries) && i < |entries| && entries[i] == parent && known == ValuesByCommit(entries)
    requires child.parents == [parent.id]
    ensures ParentsBehind(known, child) == AtMost(parent.values, child.values)
  {
    ValueIn(entries, i, parent, known);
    OnlyParent(known, child, parent.id, parent.values);
  }

  lemma LinearGraphRegression(entries: seq<Commit>, i: nat)
    requires Linear(entries) && i < |entries| && !ParentsBehind(ValuesByCommit(entries), entries[i])
    ensures SequenceRegresses(ValuesOf(entries))
  {
    FirstParents(entries);
    LaterParents(entries, i - 1, entries[i - 1], entries[i], ValuesByCommit(entries));
    var history := ValuesOf(entries);
    assert !AtMost(history[i - 1], history[i - 1 + 1]);
  }

  lemma LinearSequenceRegression(entries: seq<Commit>, i: nat)
    requires Linear(entries) && i < |entries| - 1 && !AtMost(ValuesOf(entries)[i], ValuesOf(entries)[i + 1])
    ensures GraphRegresses(entries)
  {
    LaterParents(entries, i, entries[i], entries[i + 1], ValuesByCommit(entries));
  }

  /** On a linear history the graph check gives exactly the verdict of the sequence check. */
  lemma LinearAgrees(entries: seq<Commit>, expected: Progress)
    requires Linear(entries)
    ensures JudgeGraph(entries, expected) == JudgeSequence(ValuesOf(entries), expected)
  {
    if GraphRegresses(entries) {
      var i :| 0 <= i < |entries| && !ParentsBehind(ValuesByCommit(entries), entries[i]);
      LinearGraphRegression(entries, i);
    } else if SequenceRegresses(ValuesOf(entries)) {
      var i :| 0 <= i < |ValuesOf(entries)| - 1 && !AtMost(ValuesOf(entries)[i], ValuesOf(entries)[i + 1]);
      LinearSequenceRegression(entries, i);
    }
  }

  // ---------------------------------------------------------------- the verdicts by their fields

  /** None of the four counts goes down. */
  ghost predicate NotBack(a: Progress, b: Progress) {
    && a.queueDone <= b.queueDone && a.queueTotal <= b.queueTotal
    && a.featureDone <= b.featureDone && a.featureTotal <= b.featureTotal
  }

  /** A count goes down from a commit of the range to one that names it as a parent. */
  ghost predicate BackAlong(entries: seq<Commit>, child: int, parent: int) {
    && 0 <= child < |entries| && 0 <= parent < |entries| && entries[parent].id in entries[child].parents
    && !NotBack(entries[parent].values, entries[child].values)
  }

  ghost predicate BackBetween(history: seq<Progress>, i: int) {
    0 <= i < |history| - 1 && !NotBack(history[i], history[i + 1])
  }

  lemma RegressesMeans(history: seq<Progress>)
    ensures SequenceRegresses(history) <==> exists i :: BackBetween(history, i)
  {
    if SequenceRegresses(history) {
      var i :| 0 <= i < |history| - 1 && !AtMost(history[i], history[i + 1]);
      assert BackBetween(history, i);
    }
  }

  /** The refusals of the sequence check: nothing there, a count going down between neighbours, a head off the queue. */
  lemma SequenceVerdict(history: seq<Progress>, expected: Progress)
    ensures JudgeSequence(history, expected) == Some(EmptyRange) <==> |history| == 0
    ensures JudgeSequence(history, expected) == Some(Regressed) <==> exists i :: BackBetween(history, i)
    ensures JudgeSequence(history, expected) == Some(HeadMismatch) <==>
            |history| > 0 && (forall i :: !BackBetween(history, i)) && history[|history| - 1] != expected
  {
    RegressesMeans(history);
  }

  lemma ParentBehind(entries: seq<Commit>, child: nat, parent: int)
    requires DistinctCommits(entries) && child < |entries|
    ensures ParentsBehind(ValuesByCommit(entries), entries[child]) ==> !BackAlong(entries, child, parent)
  {
    var known, c := ValuesByCommit(entries), entries[child];
    if 0 <= parent < |entries| && entries[parent].id in c.parents {
      ValueOf(entries, parent);
      var j :| 0 <= j < |c.parents| && c.parents[j] == entries[parent].id;
      assert c.parents[j] in known;
    }
  }

  lemma ParentAhead(entries: seq<Commit>, child: nat) returns (parent: nat)
    requires DistinctCommits(entries) && child < |entries|
    requires !ParentsBehind(ValuesByCommit(entries), entries[child])
    ensures BackAlong(entries, child, parent)
  {
    var known, c := ValuesByCommit(entries), entries[child];
    var j :| 0 <= j < |c.parents| && c.parents[j] in known && !AtMost(known[c.parents[j]], c.values);
    KnownCommits(entries, c.parents[j]);
    parent :| parent < |entries| && entries[parent].id == c.parents[j];
    ValueOf(entries, parent);
  }

  /** The refusals of the graph check, with a count going down from any parent in the range. */
  lemma GraphVerdict(entries: seq<Commit>, expected: Progress)
    requires DistinctCommits(entries)
    ensures JudgeGraph(entries, expected) == Some(EmptyRange) <==> |entries| == 0
    ensures JudgeGraph(entries, expected) == Some(Regressed) <==> exists child, parent :: BackAlong(entries, child, parent)
    ensures JudgeGraph(entries, expected) == Some(HeadMismatch) <==>
            && |entries| > 0 && (forall child, parent :: !BackAlong(entries, child, parent))
            && entries[|entries| - 1].values != expected
  {
    if child: nat, parent: nat :| BackAlong(entries, child, parent) {
      ParentBehind(entries, child, parent);
    }
    if GraphRegresses(entries) {
      var i: nat :| i < |entries| && !ParentsBehind(ValuesByCommit(entries), entries[i]);
      var parent := ParentAhead(entries, i);
    }
  }
}
