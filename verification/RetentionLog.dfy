/** What the log of a cleanup says: which listing and which clock reading justified each deletion. */
module RetentionLog {
  import opened Wrappers
  import opened ArtifactRetention

  predicate IsDelete(e: Event) { e.Asked? && e.request.Delete? }

  predicate IsListing(e: Event) { e.Asked? && e.request.ListPage? }

  /** The answer ends the run. */
  predicate Refuses(e: Event) { e.Asked? && e.reply.Refused? }

  /** The artifacts shown by the list pages of a stretch of the log. */
  function Items(events: seq<Event>): seq<Artifact> {
    if events == [] then []
    else
      var n := |events| - 1;
      Items(events[..n]) + if IsListing(events[n]) && events[n].reply.Page? then events[n].reply.items else []
  }

  /** How many artifacts page `k` of a listing has to show, counting from 0. */
  function Due(total: nat, k: nat): int {
    if total - 100 * k < 100 then total - 100 * k else 100
  }

  /** Page `k` of a listing of so many artifacts; there is a further page only while some are still to be shown. */
  predicate PageOk(e: Event, k: nat, total: nat) {
    && e.Asked? && e.request == ListPage(k + 1) && e.reply.Page? && e.reply.total == total
    && |e.reply.items| == Due(total, k) && (k > 0 ==> total > 100 * k)
  }

  /** The first pages of a listing, in order and all of the same total, without repeated ids. */
  ghost predicate Pages(events: seq<Event>, total: nat) {
    && total <= 2000 && DistinctIds(Items(events))
    && forall k :: 0 <= k < |events| ==> PageOk(events[k], k, total)
  }

  /** All pages of a listing. */
  ghost predicate Complete(events: seq<Event>) {
    events != [] && exists total :: Pages(events, total) && |Items(events)| == total
  }

  /** From `from` up to `to` the log is one complete listing. */
  ghost predicate ListedAt(log: seq<Event>, from: nat, to: nat) {
    from < to <= |log| && Complete(log[from..to])
  }

  /** The error a page of a listing is answered with, if the pages before it agreed. */
  ghost predicate ListingFailed(events: seq<Event>, code: Code) {
    events != [] &&
    var n := |events| - 1;
    && (exists total :: Pages(events[..n], total)) && !Complete(events[..n])
    && events[n].Asked? && events[n].request == ListPage(n + 1)
    && match events[n].reply
       case Refused(unknown) => !unknown && code == Refusal(false)
       case Page(total, _) =>
         if total > 2000 then code == SnapshotLimit
         else code == SnapshotChanged && forall t :: !Pages(events, t)
       case _ => code == InvalidResponse
  }

  lemma {:induction false} PagesItems(events: seq<Event>, total: nat)
    requires Pages(events, total)
    ensures |Items(events)| == if total < 100 * |events| && events != [] then total else 100 * |events|
  {
    if events != [] {
      var n := |events| - 1;
      assert PageOk(events[n], n, total);
      FrontPages(events, total);
      PagesItems(events[..n], total);
    }
  }

  lemma FrontPages(events: seq<Event>, total: nat)
    requires events != [] && Pages(events, total)
    ensures Pages(events[..|events| - 1], total)
  {
    var front := events[..|events| - 1];
    assert Items(front) == Items(events)[..|Items(front)|];
    forall k | 0 <= k < |front| ensures PageOk(front[k], k, total) { assert PageOk(events[k], k, total); }
  }

  /** One more page keeps the listing in order. */
  lemma PagesGrow(events: seq<Event>, e: Event, total: nat)
    requires Pages(events, total) && PageOk(e, |events|, total) && DistinctIds(Items(events) + e.reply.items)
    ensures Pages(events + [e], total) && Items(events + [e]) == Items(events) + e.reply.items
  {
    assert (events + [e])[..|events|] == events;
  }

  /** A page that does not fit what came before makes the listing inconsistent. */
  lemma PageBreaks(events: seq<Event>, e: Event, total: nat)
    requires Pages(events, total) && e.Asked? && IsListing(e) && e.reply.Page?
    requires (events != [] ==> e.reply.total != total) || (events == [] ==> total == e.reply.total)
    requires (events == [] || e.reply.total == total) ==>
               |e.reply.items| != Due(e.reply.total, |events|) || !DistinctIds(Items(events) + e.reply.items)
    ensures forall t :: !Pages(events + [e], t)
  {
    forall t ensures !Pages(events + [e], t) {
      LastPage(events, e, total, t);
    }
  }

  lemma LastPage(events: seq<Event>, e: Event, total: nat, t: nat)
    requires Pages(events, total) && e.Asked? && IsListing(e) && e.reply.Page?
    ensures Pages(events + [e], t) ==>
              && PageOk(e, |events|, t) && DistinctIds(Items(events) + e.reply.items) && (events != [] ==> t == total)
  {
    var more := events + [e];
    assert more[..|events|] == events && more[|events|] == e;
    assert events != [] ==> more[0] == events[0] && PageOk(events[0], 0, total);
  }

  /**
   The deletion at `at` targets an artifact that the listing starting at `from` ranks behind three newer available ones
   at the clock reading immediately before the deletion; no other deletion lies between.
   */
  ghost predicate Justified(log: seq<Event>, from: nat, to: nat, at: nat) {
    && from <= to < at < |log| && ListedAt(log, from, to)
    && IsDelete(log[at]) && log[at - 1].Clock?
    && (forall k :: from <= k < at ==> !IsDelete(log[k]))
    && exists x: Artifact :: x.id == log[at].request.id && BehindThree(Items(log[from..to]), log[at - 1].now, x)
  }

  /** The last event is a deletion that a listing starting at `from` justifies. */
  ghost predicate LastJustified(log: seq<Event>, from: nat) {
    exists to, at :: at == |log| - 1 && Justified(log, from, to, at)
  }

  lemma JustifiedExtends(log: seq<Event>, more: seq<Event>, from: nat, to: nat, at: nat)
    requires Justified(log, from, to, at)
    ensures Justified(log + more, from, to, at)
  {
    var longer := log + more;
    assert longer[from..to] == log[from..to];
  }

  /** The artifacts whose deletion was requested, in order. */
  function Targets(log: seq<Event>): seq<nat> {
    if log == [] then []
    else
      var n := |log| - 1;
      Targets(log[..n]) + if IsDelete(log[n]) then [log[n].request.id] else []
  }

  /** Events without a deletion leave the targets as they were. */
  lemma {:induction false} TargetsAfter(before: seq<Event>, log: seq<Event>)
    requires before <= log
    requires forall k :: |before| <= k < |log| ==> !IsDelete(log[k])
    ensures Targets(log) == Targets(before)
  {
    if |before| < |log| {
      TargetsAfter(before, log[..|log| - 1]);
    } else {
      assert log == before;
    }
  }

  ghost predicate Unanswered(log: seq<Event>) {
    |log| > 0 && IsDelete(log[|log| - 1]) && Refuses(log[|log| - 1])
  }

  /** Every deletion was justified when it was requested. */
  ghost predicate AllJustified(log: seq<Event>) {
    forall at :: 0 <= at < |log| && IsDelete(log[at]) ==> exists from, to :: Justified(log, from, to, at)
  }

  lemma HasJustification(log: seq<Event>, from: nat, to: nat, at: nat)
    requires Justified(log, from, to, at)
    ensures exists f, t :: Justified(log, f, t, at)
  {}

  /** A justification stays one as the log grows. */
  lemma StaysJustified(before: seq<Event>, log: seq<Event>, at: nat)
    requires before <= log && AllJustified(before) && at < |before| && IsDelete(before[at])
    ensures exists from, to :: Justified(log, from, to, at)
  {
    var from, to :| Justified(before, from, to, at);
    assert before + log[|before|..] == log;
    JustifiedExtends(before, log[|before|..], from, to, at);
    HasJustification(log, from, to, at);
  }

  lemma LastIsJustified(log: seq<Event>, from: nat, at: nat)
    requires LastJustified(log, from) && at == |log| - 1
    ensures exists f, t :: Justified(log, f, t, at)
  {
    var to, last :| last == |log| - 1 && Justified(log, from, to, last);
    HasJustification(log, from, to, at);
  }

  /** One more pass keeps the history justified. */
  lemma PassJustified(before: seq<Event>, log: seq<Event>)
    requires before < log && AllJustified(before)
    requires forall k :: |before| <= k < |log| - 1 ==> !IsDelete(log[k])
    requires IsDelete(log[|log| - 1]) ==> LastJustified(log, |before|)
    ensures AllJustified(log)
  {
    forall at | 0 <= at < |log| && IsDelete(log[at]) ensures exists from, to :: Justified(log, from, to, at) {
      if at < |before| {
        assert log[at] == before[at];
        StaysJustified(before, log, at);
      } else {
        assert at == |log| - 1;
        LastIsJustified(log, |before|, at);
      }
    }
  }

  ghost predicate DistinctTargets(ids: seq<nat>) {
    forall i, j :: 0 <= i < j < |ids| ==> ids[i] != ids[j]
  }

  datatype Attempt = Gone | Skipped | Stopped(code: Code)

  datatype Report = Report(blocked: Option<Code>, candidates: seq<Artifact>, deleted: seq<nat>, skipped: nat, unknown: seq<nat>,
                           remaining: int)

  /** The error an unfitting answer to a single question stands for. */
  function Fault(e: Event): Code
    requires e.Asked?
  {
    if e.reply.Refused? then Refusal(e.reply.unknown) else InvalidResponse
  }

  /**
   What one pass does after its listing: a clock reading, the artifact, its run, the clock again, the deletion. It goes
   on only while the listing leaves the artifact behind three newer ones and artifact and run are as they were; what it
   stopped at decides its outcome.
   */
  ghost predicate Tail(current: seq<Artifact>, tail: seq<Event>, x: Artifact, r: Attempt) {
    && 1 <= |tail| <= 5 && tail[0].Clock?
    && (|tail| > 1 ==> x in Old(current, tail[0].now) && tail[1].Asked? && tail[1].request == GetArtifact(x.id))
    && (|tail| > 2 ==> tail[1].reply == Item(x) && tail[2].Asked? && tail[2].request == GetRun(x.run))
    && (|tail| > 3 ==> tail[2].reply == Run(true) && tail[3].Clock?)
    && (forall k :: 1 <= k < |tail| && k < 4 && tail[k].Asked? ==> tail[k].reply != Refused(true))
    && (|tail| > 4 ==> x in Old(current, tail[3].now) && tail[4].Asked? && tail[4].request == Delete(x.id))
    && match |tail|
       case 1 => r == Skipped && x !in Old(current, tail[0].now)
       case 2 => tail[1].reply != Item(x) && r == (if tail[1].reply.Item? then Skipped else Stopped(Fault(tail[1])))
       case 3 => tail[2].reply != Run(true) && r == (if tail[2].reply.Run? then Skipped else Stopped(Fault(tail[2])))
       case 4 => r == Skipped && x !in Old(current, tail[3].now)
       case _ => (tail[4].reply.Deleted? || tail[4].reply.Refused?)
                 && r == (if tail[4].reply.Deleted? then Gone else Stopped(Fault(tail[4])))
  }

  /** One pass of the deletion loop over `x`: a listing, which may fail, and then what follows it. */
  ghost predicate Passed(before: seq<Event>, log: seq<Event>, x: Artifact, r: Attempt) {
    && before < log
    && (|| (r.Stopped? && ListingFailed(log[|before|..], r.code))
        || exists to :: PassedFrom(before, log, to, x, r))
  }

  ghost predicate PassedFrom(before: seq<Event>, log: seq<Event>, to: int, x: Artifact, r: Attempt) {
    && before < log && |before| < to < |log| && ListedAt(log, |before|, to)
    && Tail(Items(log[|before|..to]), log[to..], x, r)
  }

  lemma PassedBy(before: seq<Event>, pages: seq<Event>, tail: seq<Event>, x: Artifact, r: Attempt)
    requires Complete(pages) && Tail(Items(pages), tail, x, r)
    ensures Passed(before, before + pages + tail, x, r)
  {
    var log, to := before + pages + tail, |before| + |pages|;
    assert log[|before|..to] == pages && log[to..] == tail;
    assert PassedFrom(before, log, to, x, r);
  }

  // ---------------------------------------------------------------- what a pass means for the log

  /** The log grew by events that were neither refused nor deletions. */
  ghost predicate Quiet(before: seq<Event>, log: seq<Event>) {
    before <= log && forall k :: |before| <= k < |log| ==> !Refuses(log[k]) && !IsDelete(log[k])
  }

  /**
   Nothing but the last event of a pass may delete or be refused, a deletion is justified within the pass, and the outcome
   tells which it was.
   */
  ghost predicate Shaped(before: seq<Event>, log: seq<Event>, original: Artifact, r: Attempt) {
    && before < log && Quiet(before, log[..|log| - 1])
    && (IsDelete(log[|log| - 1]) ==> log[|log| - 1].request.id == original.id && LastJustified(log, |before|))
    && (Refuses(log[|log| - 1]) ==> r.Stopped?)
    && (r.Gone? <==> IsDelete(log[|log| - 1]) && !Refuses(log[|log| - 1]))
    && (r == Stopped(Refusal(true)) ==> Unanswered(log))
  }

  lemma {:induction false} PagesQuiet(events: seq<Event>, total: nat)
    requires Pages(events, total)
    ensures forall k :: 0 <= k < |events| ==> IsListing(events[k]) && !Refuses(events[k]) && !IsDelete(events[k])
  {
    forall k | 0 <= k < |events| ensures IsListing(events[k]) && !Refuses(events[k]) && !IsDelete(events[k]) {
      assert PageOk(events[k], k, total);
    }
  }

  lemma FailedShape(before: seq<Event>, log: seq<Event>, x: Artifact, code: Code)
    requires before < log && ListingFailed(log[|before|..], code)
    ensures Shaped(before, log, x, Stopped(code))
  {
    var events := log[|before|..];
    var n := |events| - 1;
    var total :| Pages(events[..n], total);
    PagesQuiet(events[..n], total);
    forall k | |before| <= k < |log| - 1 ensures !Refuses(log[k]) && !IsDelete(log[k]) {
      assert log[k] == events[..n][k - |before|];
    }
    assert log[|log| - 1] == events[n];
  }

  lemma TailQuiet(before: seq<Event>, log: seq<Event>, to: int, x: Artifact, r: Attempt)
    requires PassedFrom(before, log, to, x, r)
    ensures Quiet(before, log[..|log| - 1])
  {
    var pages, tail := log[|before|..to], log[to..];
    var total :| Pages(pages, total) && |Items(pages)| == total;
    PagesQuiet(pages, total);
    forall k | |before| <= k < |log| - 1 ensures !Refuses(log[k]) && !IsDelete(log[k]) {
      if k < to {
        assert log[k] == pages[k - |before|];
      } else {
        assert log[k] == tail[k - to];
      }
    }
  }

  lemma TailDeletes(before: seq<Event>, log: seq<Event>, to: int, x: Artifact, r: Attempt)
    requires PassedFrom(before, log, to, x, r) && |log[to..]| == 5
    requires forall k :: |before| <= k < |log| - 1 ==> !IsDelete(log[k])
    ensures Justified(log, |before|, to, |log| - 1) && log[|log| - 1].request.id == x.id
  {
    var pages, tail := log[|before|..to], log[to..];
    assert log[|log| - 1] == tail[4] && log[|log| - 2] == tail[3];
    OldMeansBehindThree(Items(pages), tail[3].now, x);
  }

  lemma TailShape(before: seq<Event>, log: seq<Event>, to: int, x: Artifact, r: Attempt)
    requires PassedFrom(before, log, to, x, r)
    ensures Shaped(before, log, x, r)
  {
    var tail, front := log[to..], log[..|log| - 1];
    TailQuiet(before, log, to, x, r);
    assert log[|log| - 1] == tail[|tail| - 1];
    if |tail| == 5 {
      forall k | |before| <= k < |log| - 1 ensures !IsDelete(log[k]) { assert log[k] == front[k]; }
      TailDeletes(before, log, to, x, r);
    }
  }

  lemma PassedShape(before: seq<Event>, log: seq<Event>, x: Artifact, r: Attempt)
    requires Passed(before, log, x, r)
    ensures Shaped(before, log, x, r)
  {
    if to :| PassedFrom(before, log, to, x, r) {
      TailShape(before, log, to, x, r);
    } else {
      FailedShape(before, log, x, r.code);
    }
  }

  /** The deletion loop after some candidates: what was asked to be deleted is what the report says. */
  ghost predicate Progress(log: seq<Event>, candidates: seq<Artifact>, done: nat, deleted: seq<nat>) {
    && done <= |candidates| && AllJustified(log) && DistinctTargets(Targets(log))
    && Targets(log) == deleted + (if Unanswered(log) then [log[|log| - 1].request.id] else [])
    && FromCandidates(Targets(log), candidates, done)
    && RefusedLast(log)
  }

  /** Only the last event may be a refusal. */
  ghost predicate RefusedLast(log: seq<Event>) {
    forall k :: 0 <= k < |log| - 1 ==> !Refuses(log[k])
  }

  /** The report after one more pass. */
  function Updated(r: Report, id: nat, attempt: Attempt): Report {
    match attempt
    case Gone => r.(deleted := r.deleted + [id], remaining := r.remaining - 1)
    case Skipped => r.(skipped := r.skipped + 1, remaining := r.remaining - 1)
    case Stopped(code) =>
      r.(blocked := Some(code), unknown := if code == Refusal(true) then r.unknown + [id] else r.unknown)
  }

  /** The counts of the report after some passes. */
  ghost predicate Tally(log: seq<Event>, done: nat, r: Report) {
    && |r.deleted| + r.skipped + (if r.blocked.Some? then 1 else 0) == done
    && |Targets(log)| <= done
    && (r.blocked.None? ==> r.unknown == [])
    && (r.unknown != [] ==> Unanswered(log) && r.unknown == [log[|log| - 1].request.id])
  }

  ghost predicate FromCandidates(ids: seq<nat>, candidates: seq<Artifact>, done: nat) {
    forall k :: 0 <= k < |ids| ==> exists j :: 0 <= j < done && j < |candidates| && candidates[j].id == ids[k]
  }

  ghost predicate Unrefused(log: seq<Event>) {
    forall k :: 0 <= k < |log| ==> !Refuses(log[k])
  }

  /** The artifacts whose run was reported completed. */
  function Chosen(possible: seq<Artifact>, answers: seq<Event>): (r: seq<Artifact>)
    requires |possible| == |answers|
    ensures forall x :: x in r ==> x in possible
  {
    if possible == [] then []
    else
      var n := |possible| - 1;
      assert possible == possible[..n] + [possible[n]];
      Chosen(possible[..n], answers[..n]) + if answers[n].Asked? && answers[n].reply == Run(true) then [possible[n]] else []
  }

  /** One question about the run of each artifact, in order, up to the first answer that does not say whether it completed. */
  ghost predicate RunsAsked(tail: seq<Event>, possible: seq<Artifact>, r: Result<seq<Artifact>, Code>) {
    && |tail| <= |possible|
    && (forall k :: 0 <= k < |tail| ==>
          tail[k].Asked? && tail[k].request == GetRun(possible[k].run) && tail[k].reply != Refused(true))
    && (forall k :: 0 <= k < |tail| - 1 ==> tail[k].reply.Run?)
    && match r
       case Success(chosen) =>
         |tail| == |possible| && (forall k :: 0 <= k < |tail| ==> tail[k].reply.Run?) && chosen == Chosen(possible, tail)
       case Failure(code) => tail != [] && !tail[|tail| - 1].reply.Run? && code == Fault(tail[|tail| - 1])
  }

  /**
   What `cleanup` does before it may delete: a clock reading, a listing, which may fail, and the runs of the artifacts the
   listing leaves behind three newer ones. Its candidates are those whose run had completed.
   */
  ghost predicate Surveyed(log: seq<Event>, r: Result<seq<Artifact>, Code>) {
    && |log| > 1 && log[0].Clock?
    && (|| (r.Failure? && ListingFailed(log[1..], r.error))
        || exists to :: SurveyedTo(log, to, r))
  }

  ghost predicate SurveyedTo(log: seq<Event>, to: int, r: Result<seq<Artifact>, Code>) {
    && 1 < to <= |log| && log[0].Clock? && ListedAt(log, 1, to)
    && RunsAsked(log[to..], Old(Items(log[1..to]), log[0].now), r)
  }

  lemma SurveyedBy(log: seq<Event>, clock: Event, pages: seq<Event>, tail: seq<Event>, r: Result<seq<Artifact>, Code>)
    requires log == [clock] + pages + tail
    requires clock.Clock? && Complete(pages) && RunsAsked(tail, Old(Items(pages), clock.now), r)
    ensures Surveyed(log, r)
  {
    var to := 1 + |pages|;
    assert log[1..to] == pages && log[to..] == tail;
    assert SurveyedTo(log, to, r);
  }

  lemma SurveyFailed(log: seq<Event>, clock: Event, pages: seq<Event>, code: Code)
    requires log == [clock] + pages && clock.Clock? && ListingFailed(pages, code)
    ensures Surveyed(log, Failure(code))
  {
    assert log[1..] == pages;
  }

  lemma {:induction false} ChosenDistinct(possible: seq<Artifact>, answers: seq<Event>)
    requires |possible| == |answers| && DistinctIds(possible)
    ensures DistinctIds(Chosen(possible, answers))
  {
    if possible != [] {
      var n := |possible| - 1;
      ChosenDistinct(possible[..n], answers[..n]);
      var front := Chosen(possible[..n], answers[..n]);
      forall i | 0 <= i < |front| ensures front[i].id != possible[n].id {
        assert front[i] in possible[..n];
      }
    }
  }

  lemma {:induction false} ChosenInOrder(possible: seq<Artifact>, answers: seq<Event>)
    requires |possible| == |answers| && OldestFirst(possible)
    ensures OldestFirst(Chosen(possible, answers))
  {
    if possible != [] {
      var n := |possible| - 1;
      ChosenInOrder(possible[..n], answers[..n]);
      var front := Chosen(possible[..n], answers[..n]);
      forall i | 0 <= i < |front|
        ensures front[i].created < possible[n].created || (front[i].created == possible[n].created && front[i].id < possible[n].id)
      {
        assert front[i] in possible[..n];
      }
    }
  }

  /** The candidates come oldest first. */
  lemma CandidatesInOrder(log: seq<Event>, candidates: seq<Artifact>)
    requires Surveyed(log, Success(candidates))
    ensures OldestFirst(candidates)
  {
    var to :| SurveyedTo(log, to, Success(candidates));
    OldInOrder(Items(log[1..to]), log[0].now);
    ChosenInOrder(Old(Items(log[1..to]), log[0].now), log[to..]);
  }

  /** Every candidate was behind three newer available artifacts in the first listing at the first clock reading. */
  lemma CandidatesBehindThree(log: seq<Event>, candidates: seq<Artifact>) returns (to: int)
    requires Surveyed(log, Success(candidates))
    ensures 1 < to <= |log| && ListedAt(log, 1, to) && DistinctIds(candidates)
    ensures forall x :: x in candidates ==> BehindThree(Items(log[1..to]), log[0].now, x)
  {
    to :| SurveyedTo(log, to, Success(candidates));
    var listed := Items(log[1..to]);
    OldIds(listed, log[0].now);
    ChosenDistinct(Old(listed, log[0].now), log[to..]);
    forall x | x in candidates ensures BehindThree(listed, log[0].now, x) {
      OldMeansBehindThree(listed, log[0].now, x);
    }
  }

  /** A clock reading, quiet pages and a quiet rest make a quiet log. */
  lemma JoinedQuiet(log: seq<Event>, pages: seq<Event>, tail: seq<Event>, to: nat)
    requires 1 < to <= |log| && log[0].Clock? && pages == log[1..to] && tail == log[to..]
    requires forall k :: 0 <= k < |pages| ==> !Refuses(pages[k]) && !IsDelete(pages[k])
    requires forall k :: 0 <= k < |tail| ==> !Refuses(tail[k]) && !IsDelete(tail[k])
    ensures Quiet([], log)
  {
    forall k | 0 <= k < |log| ensures !Refuses(log[k]) && !IsDelete(log[k]) {
      if 0 < k < to {
        assert log[k] == pages[k - 1];
      } else if to <= k {
        assert log[k] == tail[k - to];
      }
    }
  }

  lemma RunsQuiet(tail: seq<Event>, possible: seq<Artifact>, chosen: seq<Artifact>)
    requires RunsAsked(tail, possible, Success(chosen))
    ensures forall k :: 0 <= k < |tail| ==> !Refuses(tail[k]) && !IsDelete(tail[k])
  {}

  lemma SurveyQuiet(log: seq<Event>, candidates: seq<Artifact>)
    requires Surveyed(log, Success(candidates))
    ensures Quiet([], log)
  {
    var to :| SurveyedTo(log, to, Success(candidates));
    var pages, tail := log[1..to], log[to..];
    var total :| Pages(pages, total) && |Items(pages)| == total;
    PagesQuiet(pages, total);
    RunsQuiet(tail, Old(Items(pages), log[0].now), candidates);
    JoinedQuiet(log, pages, tail, to);
  }

  /** Only the last event of a survey that failed may be refused, and none deletes. */
  ghost predicate QuietEnd(log: seq<Event>) {
    log != [] && Quiet([], log[..|log| - 1]) && !IsDelete(log[|log| - 1])
  }

  lemma ListingFailureQuiet(log: seq<Event>, code: Code)
    requires |log| > 1 && log[0].Clock? && ListingFailed(log[1..], code)
    ensures QuietEnd(log)
  {
    FailedShape([log[0]], log, Artifact(0, "", 0, 0, 0, 0, false, 0, None, ""), code);
    var front := log[..|log| - 1];
    forall k | 0 <= k < |front| ensures !Refuses(front[k]) && !IsDelete(front[k]) {}
    assert log[|log| - 1] == log[1..][|log| - 2];
  }

  lemma RunFailureQuiet(log: seq<Event>, to: int, code: Code)
    requires SurveyedTo(log, to, Failure(code))
    ensures QuietEnd(log)
  {
    var pages, tail := log[1..to], log[to..];
    var total :| Pages(pages, total) && |Items(pages)| == total;
    PagesQuiet(pages, total);
    forall k | 0 <= k < |log| - 1 ensures !Refuses(log[k]) && !IsDelete(log[k]) {
      if 0 < k < to {
        assert log[k] == pages[k - 1];
      } else if to <= k {
        assert log[k] == tail[k - to];
      }
    }
    assert log[|log| - 1] == tail[|tail| - 1];
  }

  lemma SurveyFailureQuiet(log: seq<Event>, code: Code)
    requires Surveyed(log, Failure(code))
    ensures QuietEnd(log)
  {
    if to :| SurveyedTo(log, to, Failure(code)) {
      RunFailureQuiet(log, to, code);
    } else {
      ListingFailureQuiet(log, code);
    }
  }

  lemma QuietProgress(log: seq<Event>, candidates: seq<Artifact>)
    requires Quiet([], log)
    ensures Targets(log) == [] && Progress(log, candidates, 0, []) && Unrefused(log) && !Unanswered(log)
  {
    TargetsAfter([], log);
  }

  lemma EndedProgress(log: seq<Event>, code: Code)
    requires QuietEnd(log)
    ensures Targets(log) == [] && Accounted(log, Report(Some(code), [], [], 0, [], 0)) && Orderly(log)
  {
    var quiet := log[..|log| - 1];
    forall k | 0 <= k < |log| - 1 ensures !Refuses(log[k]) && !IsDelete(log[k]) { assert log[k] == quiet[k]; }
    TargetsAfter([], log);
  }

  /** A pass changes the targets by at most its own artifact, and keeps everything justified. */
  lemma PassTargets(before: seq<Event>, log: seq<Event>, x: Artifact, attempt: Attempt)
    requires AllJustified(before) && Shaped(before, log, x, attempt)
    ensures AllJustified(log)
    ensures Targets(log) == Targets(before) + if attempt.Gone? || Unanswered(log) then [x.id] else []
  {
    var quiet := log[..|log| - 1];
    forall k | |before| <= k < |log| - 1 ensures !IsDelete(log[k]) { assert log[k] == quiet[k]; }
    TargetsAfter(before, quiet);
    PassJustified(before, log);
  }

  lemma PassRefusals(before: seq<Event>, log: seq<Event>, x: Artifact, attempt: Attempt)
    requires Unrefused(before) && Shaped(before, log, x, attempt)
    ensures RefusedLast(log) && (!attempt.Stopped? ==> Unrefused(log)) && (Unanswered(log) ==> attempt.Stopped?)
  {
    var quiet := log[..|log| - 1];
    forall k | 0 <= k < |log| - 1 ensures !Refuses(log[k]) {
      assert log[k] == quiet[k];
      if k < |before| {
        assert log[k] == before[k];
      }
    }
  }

  lemma NewTarget(ids: seq<nat>, candidates: seq<Artifact>, done: nat)
    requires done < |candidates| && DistinctIds(candidates)
    requires DistinctTargets(ids) && FromCandidates(ids, candidates, done)
    ensures DistinctTargets(ids + [candidates[done].id])
  {
    forall k | 0 <= k < |ids| ensures ids[k] != candidates[done].id {
      assert FromCandidates(ids, candidates, done);
    }
  }

  lemma PassProgress(before: seq<Event>, log: seq<Event>, candidates: seq<Artifact>, done: nat, r: Report, attempt: Attempt)
    requires done < |candidates| && DistinctIds(candidates)
    requires Progress(before, candidates, done, r.deleted) && Unrefused(before)
    requires Shaped(before, log, candidates[done], attempt)
    ensures Progress(log, candidates, done + 1, Updated(r, candidates[done].id, attempt).deleted)
  {
    PassTargets(before, log, candidates[done], attempt);
    PassRefusals(before, log, candidates[done], attempt);
    NewTarget(Targets(before), candidates, done);
    TargetsFrom(Targets(before), Targets(log), candidates, done);
  }

  lemma PassTally(before: seq<Event>, log: seq<Event>, x: Artifact, done: nat, r: Report, attempt: Attempt)
    requires AllJustified(before) && Tally(before, done, r) && r.blocked.None?
    requires Shaped(before, log, x, attempt)
    ensures Tally(log, done + 1, Updated(r, x.id, attempt))
  {
    PassTargets(before, log, x, attempt);
  }

  /** All that one more pass does for the account. */
  lemma PassDone(before: seq<Event>, log: seq<Event>, candidates: seq<Artifact>, done: nat, r: Report, attempt: Attempt)
    requires done < |candidates| && DistinctIds(candidates) && r.blocked.None?
    requires Progress(before, candidates, done, r.deleted) && Tally(before, done, r) && Unrefused(before)
    requires Passed(before, log, candidates[done], attempt)
    ensures before < log && (!attempt.Stopped? ==> Unrefused(log))
    ensures Progress(log, candidates, done + 1, Updated(r, candidates[done].id, attempt).deleted)
    ensures Tally(log, done + 1, Updated(r, candidates[done].id, attempt))
  {
    PassedShape(before, log, candidates[done], attempt);
    PassProgress(before, log, candidates, done, r, attempt);
    PassTally(before, log, candidates[done], done, r, attempt);
    PassRefusals(before, log, candidates[done], attempt);
  }

  lemma TargetsFrom(ids: seq<nat>, more: seq<nat>, candidates: seq<Artifact>, done: nat)
    requires done < |candidates| && FromCandidates(ids, candidates, done)
    requires more == ids || more == ids + [candidates[done].id]
    ensures FromCandidates(more, candidates, done + 1)
  {
    forall k | 0 <= k < |more|
      ensures exists j :: 0 <= j < done + 1 && j < |candidates| && candidates[j].id == more[k]
    {
      if k < |ids| {
        assert more[k] == ids[k];
        var j :| 0 <= j < done && j < |candidates| && candidates[j].id == ids[k];
        assert candidates[j].id == more[k];
      } else {
        assert candidates[done].id == more[k];
      }
    }
  }

  /** Some candidate has this id. */
  ghost predicate IsCandidate(candidates: seq<Artifact>, id: nat) {
    exists x :: x in candidates && x.id == id
  }

  /** The report accounts for every candidate and for every deletion asked for. */
  ghost predicate Accounted(log: seq<Event>, r: Report) {
    && |r.candidates| == |r.deleted| + r.skipped + r.remaining
    && r.remaining >= (if Unanswered(log) then 1 else 0)
    && Targets(log) == r.deleted + (if Unanswered(log) then [log[|log| - 1].request.id] else [])
    && (forall k :: 0 <= k < |Targets(log)| ==> IsCandidate(r.candidates, Targets(log)[k]))
    && (r.unknown != [] ==> Unanswered(log) && r.unknown == [log[|log| - 1].request.id])
  }

  /** All deletions justified and of different artifacts, and nothing after a refusal. */
  ghost predicate Orderly(log: seq<Event>) {
    AllJustified(log) && DistinctTargets(Targets(log)) && RefusedLast(log)
  }

  lemma Account(log: seq<Event>, r: Report, done: nat)
    requires Progress(log, r.candidates, done, r.deleted) && Tally(log, done, r)
    requires r.remaining == |r.candidates| - |r.deleted| - r.skipped
    requires r.blocked.None? ==> Unrefused(log)
    ensures Accounted(log, r) && Orderly(log)
  {
    var ids := Targets(log);
    forall k | 0 <= k < |ids| ensures IsCandidate(r.candidates, ids[k]) {
      assert FromCandidates(ids, r.candidates, done);
      var j :| 0 <= j < done && j < |r.candidates| && r.candidates[j].id == ids[k];
      assert r.candidates[j] in r.candidates;
    }
  }

  // ---------------------------------------------------------------- the whole cleanup

  /** What the report says after these attempts at the first candidates. */
  function Told(candidates: seq<Artifact>, attempts: seq<Attempt>): Report
    requires |attempts| <= |candidates|
  {
    if attempts == [] then Report(None, candidates, [], 0, [], |candidates|)
    else
      var n := |attempts| - 1;
      Updated(Told(candidates, attempts[..n]), candidates[n].id, attempts[n])
  }

  /**
   One pass after another, `logs` holding the log before and after each: only the last may have stopped, and short of the
   bound one did.
   */
  ghost predicate Performed(logs: seq<seq<Event>>, attempts: seq<Attempt>, candidates: seq<Artifact>, bound: nat) {
    && |logs| == |attempts| + 1 && |attempts| <= bound <= |candidates|
    && (forall i :: 0 <= i < |attempts| ==> Passed(logs[i], logs[i + 1], candidates[i], attempts[i]))
    && (forall i :: 0 <= i < |attempts| - 1 ==> !attempts[i].Stopped?)
    && (|attempts| < bound ==> attempts != [] && attempts[|attempts| - 1].Stopped?)
  }

  /** The passes so far, none of which stopped. */
  ghost predicate Underway(logs: seq<seq<Event>>, attempts: seq<Attempt>, candidates: seq<Artifact>) {
    && |logs| == |attempts| + 1 && |attempts| <= |candidates|
    && (forall i :: 0 <= i < |attempts| ==> Passed(logs[i], logs[i + 1], candidates[i], attempts[i]))
    && (forall i :: 0 <= i < |attempts| ==> !attempts[i].Stopped?)
  }

  function Bound(candidates: seq<Artifact>, max: nat): nat {
    if |candidates| < max then |candidates| else max
  }

  /**
   Everything `cleanup` did: either its survey failed and the report says so, or it surveyed its candidates and passed over
   them one by one up to the bound or the first error, and the report tells exactly that.
   */
  ghost predicate Performance(log: seq<Event>, logs: seq<seq<Event>>, attempts: seq<Attempt>, r: Report, max: nat) {
    || (r.blocked.Some? && attempts == [] && Surveyed(log, Failure(r.blocked.value))
        && r == Report(r.blocked, [], [], 0, [], 0))
    || (&& logs != [] && Surveyed(logs[0], Success(r.candidates)) && logs[|logs| - 1] == log
        && Performed(logs, attempts, r.candidates, Bound(r.candidates, max)) && r == Told(r.candidates, attempts))
  }

  lemma ToldSnoc(candidates: seq<Artifact>, attempts: seq<Attempt>, a: Attempt)
    requires |attempts| < |candidates|
    ensures Told(candidates, attempts + [a]) == Updated(Told(candidates, attempts), candidates[|attempts|].id, a)
  {
    assert (attempts + [a])[..|attempts|] == attempts;
  }

  lemma UnderwaySnoc(logs: seq<seq<Event>>, attempts: seq<Attempt>, candidates: seq<Artifact>, log: seq<Event>, a: Attempt)
    requires Underway(logs, attempts, candidates) && |attempts| < |candidates|
    requires Passed(logs[|logs| - 1], log, candidates[|attempts|], a)
    ensures !a.Stopped? ==> Underway(logs + [log], attempts + [a], candidates)
    ensures a.Stopped? ==> forall max :: |attempts| < max ==>
              Performed(logs + [log], attempts + [a], candidates, Bound(candidates, max))
  {
    var all, more := logs + [log], attempts + [a];
    forall i | 0 <= i < |more| ensures Passed(all[i], all[i + 1], candidates[i], more[i]) {
      if i < |attempts| {
        assert all[i] == logs[i] && all[i + 1] == logs[i + 1] && more[i] == attempts[i];
      }
    }
  }

  /** The loop after some passes, none of which stopped. */
  ghost predicate Ongoing(start: seq<Event>, log: seq<Event>, logs: seq<seq<Event>>, attempts: seq<Attempt>,
                          candidates: seq<Artifact>, r: Report)
  {
    && Underway(logs, attempts, candidates) && logs[0] == start && logs[|logs| - 1] == log
    && r == Told(candidates, attempts) && Standing(log, candidates, |attempts|, r) && r.blocked.None? && Unrefused(log)
  }

  /** What the report says agrees with the log. */
  ghost predicate Standing(log: seq<Event>, candidates: seq<Artifact>, done: nat, r: Report) {
    && r.candidates == candidates && r.remaining == |candidates| - |r.deleted| - r.skipped
    && Progress(log, candidates, done, r.deleted) && Tally(log, done, r)
  }

  /** The loop after its last pass. */
  ghost predicate Over(start: seq<Event>, log: seq<Event>, logs: seq<seq<Event>>, attempts: seq<Attempt>,
                       candidates: seq<Artifact>, r: Report, max: nat)
  {
    && Performed(logs, attempts, candidates, Bound(candidates, max)) && r == Told(candidates, attempts)
    && r.candidates == candidates && logs[0] == start && logs[|logs| - 1] == log
    && Accounted(log, r) && Orderly(log) && |Targets(log)| <= max
  }

  lemma PassStands(before: seq<Event>, log: seq<Event>, candidates: seq<Artifact>, done: nat, r: Report, a: Attempt)
    requires done < |candidates| && DistinctIds(candidates) && r.blocked.None?
    requires Standing(before, candidates, done, r) && Unrefused(before) && Passed(before, log, candidates[done], a)
    ensures Standing(log, candidates, done + 1, Updated(r, candidates[done].id, a)) && (!a.Stopped? ==> Unrefused(log))
  {
    PassDone(before, log, candidates, done, r, a);
  }

  lemma LoopStarts(log: seq<Event>, candidates: seq<Artifact>, r: Report)
    requires Quiet([], log) && r == Report(None, candidates, [], 0, [], |candidates|)
    ensures Ongoing(log, log, [log], [], candidates, r)
  {
    QuietProgress(log, candidates);
  }

  lemma LoopGoesOn(start: seq<Event>, before: seq<Event>, log: seq<Event>, logs: seq<seq<Event>>, attempts: seq<Attempt>,
                   candidates: seq<Artifact>, r: Report, a: Attempt)
    requires Ongoing(start, before, logs, attempts, candidates, r) && |attempts| < |candidates| && DistinctIds(candidates)
    requires Passed(before, log, candidates[|attempts|], a) && !a.Stopped?
    ensures Ongoing(start, log, logs + [log], attempts + [a], candidates, Updated(r, candidates[|attempts|].id, a))
  {
    UnderwaySnoc(logs, attempts, candidates, log, a);
    ToldSnoc(candidates, attempts, a);
    PassStands(before, log, candidates, |attempts|, r, a);
  }

  lemma LoopStops(start: seq<Event>, before: seq<Event>, log: seq<Event>, logs: seq<seq<Event>>, attempts: seq<Attempt>,
                  candidates: seq<Artifact>, r: Report, a: Attempt, max: nat)
    requires Ongoing(start, before, logs, attempts, candidates, r) && |attempts| < Bound(candidates, max) && DistinctIds(candidates)
    requires Passed(before, log, candidates[|attempts|], a) && a.Stopped?
    ensures Over(start, log, logs + [log], attempts + [a], candidates, Updated(r, candidates[|attempts|].id, a), max)
  {
    UnderwaySnoc(logs, attempts, candidates, log, a);
    ToldSnoc(candidates, attempts, a);
    PassStands(before, log, candidates, |attempts|, r, a);
    Account(log, Updated(r, candidates[|attempts|].id, a), |attempts| + 1);
  }

  lemma LoopEnds(start: seq<Event>, log: seq<Event>, logs: seq<seq<Event>>, attempts: seq<Attempt>, candidates: seq<Artifact>,
                 r: Report, max: nat)
    requires Ongoing(start, log, logs, attempts, candidates, r) && |attempts| == Bound(candidates, max)
    ensures Over(start, log, logs, attempts, candidates, r, max)
  {
    Account(log, r, |attempts|);
  }

  /** Nothing follows the first error: every attempt but the last went through, and the report is blocked by just that one. */
  lemma StopsAtFirstError(log: seq<Event>, logs: seq<seq<Event>>, attempts: seq<Attempt>, r: Report, max: nat)
    requires Performance(log, logs, attempts, r, max) && attempts != []
    ensures forall i :: 0 <= i < |attempts| - 1 ==> !attempts[i].Stopped?
    ensures r.blocked == match attempts[|attempts| - 1] case Stopped(code) => Some(code) case _ => None
  {
    var n := |attempts| - 1;
    ToldUnblocked(r.candidates, attempts[..n]);
  }

  lemma {:induction false} ToldUnblocked(candidates: seq<Artifact>, attempts: seq<Attempt>)
    requires |attempts| <= |candidates| && forall i :: 0 <= i < |attempts| ==> !attempts[i].Stopped?
    ensures Told(candidates, attempts).blocked.None?
  {
    if attempts != [] {
      ToldUnblocked(candidates, attempts[..|attempts| - 1]);
    }
  }
}
