/** `_snapshot` and `cleanup`, request by request. */
module RetentionRun {
  import opened Wrappers
  import opened ArtifactRetention
  import opened RetentionLog

  class GitHub {
    /** What the server answers and the clock shows, after any number of events. */
    const replies: nat -> Reply
    const clock: nat -> int
    var log: seq<Event>

    constructor (replies: nat -> Reply, clock: nat -> int)
      ensures log == []
    {
      this.replies, this.clock, log := replies, clock, [];
    }

    method Ask(request: Request) returns (reply: Reply)
      modifies this`log
      ensures log == old(log) + [Asked(request, reply)]
      ensures if request.Delete? then reply.Deleted? || reply.Refused? else reply != Refused(true)
    {
      reply := replies(|log|);
      if request.Delete? {
        reply := if reply.Deleted? || reply.Refused? then reply else Refused(true);
      } else if reply.Refused? {
        reply := Refused(false);
      }
      log := log + [Asked(request, reply)];
    }

    method Now() returns (now: int)
      modifies this`log
      ensures log == old(log) + [Clock(now)]
    {
      now := clock(|log|);
      log := log + [Clock(now)];
    }

    /** One page of `_snapshot`, checked against the total seen before and the number of artifacts already read. */
    method FetchPage(page: nat, expected: Option<nat>, got: nat) returns (r: Result<(nat, seq<Artifact>), Code>, ghost e: Event)
      modifies this`log
      ensures log == old(log) + [e] && e.Asked? && e.request == ListPage(page) && e.reply != Refused(true)
      ensures r.Success? <==>
                && e.reply.Page? && e.reply.total <= 2000 && (expected.Some? ==> e.reply.total == expected.value)
                && |e.reply.items| == if e.reply.total - got < 100 then e.reply.total - got else 100
      ensures r.Success? ==> r.value == (e.reply.total, e.reply.items)
      ensures r.Failure? ==> r.error == if !e.reply.Page? then Fault(e)
                                        else if e.reply.total > 2000 then SnapshotLimit else SnapshotChanged
    {
      var reply := Ask(ListPage(page));
      e := Asked(ListPage(page), reply);
      if reply.Refused? {
        return Failure(Refusal(reply.unknown)), e;
      }
      if !reply.Page? {
        return Failure(InvalidResponse), e;
      }
      if reply.total > MAX_ITEMS {
        return Failure(SnapshotLimit), e;
      }
      var due := (if expected.Some? then expected.value else reply.total) - got;
      if (expected.Some? && reply.total != expected.value) || |reply.items| != (if due < PAGE then due else PAGE) {
        return Failure(SnapshotChanged), e;
      }
      return Success((reply.total, reply.items)), e;
    }

    /**
     `_snapshot`: all pages of one listing, consistent and without repeated ids, or the error of the first page that does
     not fit. The pages always suffice: the error after the last page cannot occur.
     */
    method Snapshot() returns (r: Result<seq<Artifact>, Code>, ghost pages: seq<Event>)
      modifies this`log
      ensures log == old(log) + pages
      ensures match r
              case Success(artifacts) => Complete(pages) && artifacts == Items(pages)
              case Failure(code) => ListingFailed(pages, code)
    {
      var artifacts: seq<Artifact> := [];
      var expected: Option<nat> := None;
      pages := [];
      for page := 1 to MAX_PAGES + 1
        invariant log == old(log) + pages && |pages| == page - 1 && artifacts == Items(pages)
        invariant expected.None? <==> page == 1
        invariant expected.Some? ==> Pages(pages, expected.value) && |artifacts| == PAGE * (page - 1) < expected.value
      {
        ghost var seen := pages;
        var next, e := FetchPage(page, expected, |artifacts|);
        pages := seen + [e];
        assert seen == pages[..|pages| - 1];
        assert page == 1 ==> Pages(seen, 0);
        if next.Failure? {
          PageRefused(seen, e, expected, next.error);
          return Failure(next.error), pages;
        }
        var (total, items) := next.value;
        expected := Some(total);
        var all := artifacts + items;
        assert Pages(seen, total);
        if exists i, j :: 0 <= i < j < |all| && all[i].id == all[j].id {
          PageBreaks(seen, e, total);
          return Failure(SnapshotChanged), pages;
        }
        PagesGrow(seen, e, total);
        artifacts := all;
        if |artifacts| == total {
          return Success(artifacts), pages;
        }
      }
      return Failure(PagesExhausted), pages;
    }

    /** `_completed_debug_run` */
    method CompletedRun(a: Artifact) returns (r: Result<bool, Code>, ghost e: Event)
      modifies this`log
      ensures log == old(log) + [e] && e.Asked? && e.request == GetRun(a.run) && e.reply != Refused(true)
      ensures if e.reply.Run? then r == Success(e.reply.completed) else r == Failure(Fault(e))
    {
      var reply := Ask(GetRun(a.run));
      e := Asked(GetRun(a.run), reply);
      if reply.Run? {
        return Success(reply.completed), e;
      }
      return Failure(if reply.Refused? then Refusal(reply.unknown) else InvalidResponse), e;
    }

    /** The artifact as the server shows it now. */
    method Reread(id: nat) returns (r: Result<Artifact, Code>, ghost e: Event)
      modifies this`log
      ensures log == old(log) + [e] && e.Asked? && e.request == GetArtifact(id) && e.reply != Refused(true)
      ensures if e.reply.Item? then r == Success(e.reply.item) else r == Failure(Fault(e))
    {
      var reply := Ask(GetArtifact(id));
      e := Asked(GetArtifact(id), reply);
      if reply.Item? {
        return Success(reply.item), e;
      }
      return Failure(if reply.Refused? then Refusal(reply.unknown) else InvalidResponse), e;
    }

    /** The artifact and its run, looked at again: `None` if both are still as they were. */
    method Recheck(current: seq<Artifact>, original: Artifact) returns (r: Option<Attempt>, ghost tail: seq<Event>)
      modifies this`log
      ensures log == old(log) + tail
      ensures if r.Some? then Tail(current, tail, original, r.value) else Rechecked(current, tail, original)
    {
      var now := Now();
      tail := [Clock(now)];
      if original !in Old(current, now) {
        return Some(Skipped), tail;
      }
      var refreshed, asked := Reread(original.id);
      tail := [Clock(now), asked];
      if refreshed.Failure? {
        return Some(Stopped(refreshed.error)), tail;
      }
      if refreshed.value != original {
        return Some(Skipped), tail;
      }
      var run, answered := CompletedRun(original);
      tail := [Clock(now), asked, answered];
      if run.Failure? {
        return Some(Stopped(run.error)), tail;
      }
      return if run.value then None else Some(Skipped), tail;
    }

    /** What one pass does after its listing. */
    method FinishPass(current: seq<Artifact>, original: Artifact) returns (r: Attempt, ghost tail: seq<Event>)
      modifies this`log
      ensures log == old(log) + tail && Tail(current, tail, original, r)
    {
      var changed;
      changed, tail := Recheck(current, original);
      if changed.Some? {
        return changed.value, tail;
      }
      ghost var checked := tail;
      var now := Now();
      if original !in Old(current, now) {
        ProtectedAfter(current, checked, original, now);
        return Skipped, checked + [Clock(now)];
      }
      var gone := Ask(Delete(original.id));
      DeletedAfter(current, checked, original, now, gone);
      tail := checked + [Clock(now), Asked(Delete(original.id), gone)];
      r := if gone.Deleted? then Gone else Stopped(Refusal(gone.unknown));
    }

    /** One pass of the deletion loop: relist, re-read, look at the clock again, and only then delete. */
    method DeleteOne(original: Artifact) returns (r: Attempt)
      modifies this`log
      ensures Passed(old(log), log, original, r)
    {
      var listing, pages := Snapshot();
      if listing.Failure? {
        assert log[|old(log)|..] == pages;
        return Stopped(listing.error);
      }
      ghost var tail;
      r, tail := FinishPass(listing.value, original);
      PassedBy(old(log), pages, tail, original, r);
    }
  }

  /** A pass that found everything as it was and has not looked at the clock again. */
  ghost predicate Rechecked(current: seq<Artifact>, tail: seq<Event>, x: Artifact) {
    && |tail| == 3 && tail[0].Clock? && x in Old(current, tail[0].now)
    && tail[1] == Asked(GetArtifact(x.id), Item(x)) && tail[2] == Asked(GetRun(x.run), Run(true))
  }

  lemma ProtectedAfter(current: seq<Artifact>, checked: seq<Event>, x: Artifact, now: int)
    requires Rechecked(current, checked, x) && x !in Old(current, now)
    ensures Tail(current, checked + [Clock(now)], x, Skipped)
  {}

  lemma DeletedAfter(current: seq<Artifact>, checked: seq<Event>, x: Artifact, now: int, gone: Reply)
    requires Rechecked(current, checked, x) && x in Old(current, now) && (gone.Deleted? || gone.Refused?)
    ensures Tail(current, checked + [Clock(now), Asked(Delete(x.id), gone)], x,
                 if gone.Deleted? then Gone else Stopped(Refusal(gone.unknown)))
  {}

  /** What a page that `FetchPage` refuses says about the listing. */
  lemma PageRefused(seen: seq<Event>, e: Event, expected: Option<nat>, code: Code)
    requires if expected.Some? then seen != [] && Pages(seen, expected.value) && PAGE * |seen| < expected.value else seen == []
    requires e.Asked? && e.request == ListPage(|seen| + 1) && e.reply != Refused(true)
    requires code == if !e.reply.Page? then Fault(e) else if e.reply.total > MAX_ITEMS then SnapshotLimit else SnapshotChanged
    requires e.reply.Page? && e.reply.total <= MAX_ITEMS ==>
               || (expected.Some? && e.reply.total != expected.value)
               || |e.reply.items| != Due(e.reply.total, |seen|)
    ensures ListingFailed(seen + [e], code)
  {
    assert (seen + [e])[..|seen|] == seen;
    if expected.None? {
      assert Pages(seen, 0);
    } else {
      PagesItems(seen, expected.value);
      StillIncomplete(seen, expected.value);
    }
    if e.reply.Page? && e.reply.total <= MAX_ITEMS {
      PageBreaks(seen, e, if expected.Some? then expected.value else e.reply.total);
    }
  }

  lemma StillIncomplete(seen: seq<Event>, total: nat)
    requires seen != [] && Pages(seen, total) && |Items(seen)| < total
    ensures !Complete(seen)
  {
    forall t | Pages(seen, t) ensures t == total {
      assert PageOk(seen[0], 0, t) && PageOk(seen[0], 0, total);
    }
  }

  // ---------------------------------------------------------------- cleanup

  lemma OneMoreAsked(asked: seq<Event>, possible: seq<Artifact>, i: nat, chosen: seq<Artifact>, e: Event)
    requires i < |possible| && |asked| == i && RunsAsked(asked, possible[..i], Success(chosen))
    requires e.Asked? && e.request == GetRun(possible[i].run) && e.reply != Refused(true)
    ensures if e.reply.Run?
            then RunsAsked(asked + [e], possible[..i + 1], Success(if e.reply.completed then chosen + [possible[i]] else chosen))
            else RunsAsked(asked + [e], possible, Failure(Fault(e)))
  {
    var tail := asked + [e];
    assert possible[..i + 1][..i] == possible[..i] && tail[..i] == asked;
    assert forall k :: 0 <= k < i ==> tail[k] == asked[k] && possible[..i][k] == possible[k];
  }

  /** The first look at every possible artifact: the candidates are exactly those whose run had completed. */
  method Candidates(server: GitHub, possible: seq<Artifact>) returns (r: Result<seq<Artifact>, Code>, ghost tail: seq<Event>)
    modifies server`log
    ensures server.log == old(server.log) + tail && RunsAsked(tail, possible, r)
  {
    var candidates := [];
    tail := [];
    for i := 0 to |possible|
      invariant server.log == old(server.log) + tail && |tail| == i
      invariant RunsAsked(tail, possible[..i], Success(candidates))
    {
      ghost var asked := tail;
      var completed, e := server.CompletedRun(possible[i]);
      tail := asked + [e];
      OneMoreAsked(asked, possible, i, candidates, e);
      if completed.Failure? {
        return Failure(completed.error), tail;
      }
      if completed.value {
        candidates := candidates + [possible[i]];
      }
    }
    assert possible[..|possible|] == possible;
    return Success(candidates), tail;
  }

  /** The part of `cleanup` that only reads: the clock, one listing, and the runs of the artifacts it leaves behind. */
  method Survey(server: GitHub) returns (r: Result<seq<Artifact>, Code>)
    requires server.log == []
    modifies server`log
    ensures Surveyed(server.log, r)
  {
    var now := server.Now();
    assert server.log == [Clock(now)];
    var listing, pages := server.Snapshot();
    if listing.Failure? {
      SurveyFailed(server.log, Clock(now), pages, listing.error);
      return Failure(listing.error);
    }
    var possible := Old(listing.value, now);
    ghost var tail;
    r, tail := Candidates(server, possible);
    SurveyedBy(server.log, Clock(now), pages, tail, r);
  }

  /** The deletion loop of `cleanup`; it ends at the first error. */
  method DeleteCandidates(server: GitHub, candidates: seq<Artifact>, max: nat)
    returns (r: Report, ghost logs: seq<seq<Event>>, ghost attempts: seq<Attempt>)
    requires DistinctIds(candidates) && Quiet([], server.log)
    modifies server`log
    ensures Over(old(server.log), server.log, logs, attempts, candidates, r, max)
  {
    r := Report(None, candidates, [], 0, [], |candidates|);
    logs, attempts := [server.log], [];
    LoopStarts(server.log, candidates, r);
    var i := 0;
    while i < |candidates| && i < max
      invariant 0 <= i <= Bound(candidates, max) && |attempts| == i
      invariant Ongoing(old(server.log), server.log, logs, attempts, candidates, r)
    {
      ghost var before := server.log;
      var attempt := server.DeleteOne(candidates[i]);
      if attempt.Stopped? {
        LoopStops(old(server.log), before, server.log, logs, attempts, candidates, r, attempt, max);
        return Updated(r, candidates[i].id, attempt), logs + [server.log], attempts + [attempt];
      }
      LoopGoesOn(old(server.log), before, server.log, logs, attempts, candidates, r, attempt);
      logs, attempts := logs + [server.log], attempts + [attempt];
      r := Updated(r, candidates[i].id, attempt);
      i := i + 1;
    }
    LoopEnds(old(server.log), server.log, logs, attempts, candidates, r, max);
  }

  /**
   `cleanup`, with the log of everything asked and read. It performs a survey and then one pass after another up to the
   bound or the first error, and reports exactly that. Every deletion is justified by its own pass, and no artifact is
   asked to be deleted twice.
   */
  method Cleanup(replies: nat -> Reply, clock: nat -> int, apply: bool, max: int)
    returns (r: Result<Report, Code>, log: seq<Event>, ghost logs: seq<seq<Event>>, ghost attempts: seq<Attempt>)
    ensures r.Failure? <==> max < 1 || max > 20
    ensures r.Failure? ==> log == []
    ensures r.Success? ==> Performance(log, logs, attempts, r.value, if apply then max else 0)
    ensures Orderly(log) && |Targets(log)| <= if apply && max > 0 then max else 0
    ensures r.Success? ==> Accounted(log, r.value) && OldestFirst(r.value.candidates)
  {
    logs, attempts := [], [];
    if max < 1 || max > MAX_DELETIONS {
      return Failure(InvalidArguments), [], logs, attempts;
    }
    var server := new GitHub(replies, clock);
    var chosen := Survey(server);
    if chosen.Failure? {
      SurveyFails(server.log, chosen.error, if apply then max else 0);
      return Success(Report(Some(chosen.error), [], [], 0, [], 0)), server.log, logs, attempts;
    }
    SurveyPasses(server.log, chosen.value);
    CandidatesInOrder(server.log, chosen.value);
    if !apply {
      var listed := Report(None, chosen.value, [], 0, [], |chosen.value|);
      DryRun(server.log, chosen.value, listed);
      DryRunAccount(server.log, chosen.value, listed);
      return Success(listed), server.log, [server.log], attempts;
    }
    var report;
    report, logs, attempts := DeleteCandidates(server, chosen.value, max);
    Performs(server.log, logs, attempts, report, max);
    return Success(report), server.log, logs, attempts;
  }

  lemma SurveyFails(log: seq<Event>, code: Code, max: nat)
    requires Surveyed(log, Failure(code))
    ensures var r := Report(Some(code), [], [], 0, [], 0);
            Performance(log, [], [], r, max) && Accounted(log, r) && Orderly(log) && Targets(log) == []
  {
    SurveyFailureQuiet(log, code);
    EndedProgress(log, code);
  }

  lemma SurveyPasses(log: seq<Event>, candidates: seq<Artifact>)
    requires Surveyed(log, Success(candidates))
    ensures Quiet([], log) && DistinctIds(candidates)
  {
    SurveyQuiet(log, candidates);
    var _ := CandidatesBehindThree(log, candidates);
  }

  lemma DryRun(log: seq<Event>, candidates: seq<Artifact>, r: Report)
    requires Surveyed(log, Success(candidates)) && r == Report(None, candidates, [], 0, [], |candidates|)
    ensures Performance(log, [log], [], r, 0)
  {}

  lemma DryRunAccount(log: seq<Event>, candidates: seq<Artifact>, r: Report)
    requires Quiet([], log) && r == Report(None, candidates, [], 0, [], |candidates|)
    ensures Accounted(log, r) && Orderly(log) && Targets(log) == []
  {
    QuietProgress(log, candidates);
    Account(log, r, 0);
  }

  lemma Performs(log: seq<Event>, logs: seq<seq<Event>>, attempts: seq<Attempt>, r: Report, max: nat)
    requires logs != [] && logs[|logs| - 1] == log && Surveyed(logs[0], Success(r.candidates))
    requires Performed(logs, attempts, r.candidates, Bound(r.candidates, max)) && r == Told(r.candidates, attempts)
    ensures Performance(log, logs, attempts, r, max)
  {}
}
