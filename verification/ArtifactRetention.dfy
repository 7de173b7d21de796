/**
 Bounded deletion of old debug artifacts against a server that may answer anything at any time. Every request and every
 clock reading is recorded, so that each deletion can be traced to the listing and the time that justified it.
 */
module ArtifactRetention {
  import opened Wrappers
  import opened Ordering

  const KEEP_NEWEST := 3
  const PAGE := 100
  const MAX_PAGES := 20
  const MAX_ITEMS := 2000
  const MAX_DELETIONS := 20

  datatype Artifact = Artifact(id: nat, name: string, size: nat, created: int, updated: int, expires: int, expired: bool,
                               run: nat, digest: Option<string>, head: string)

  datatype Request = ListPage(page: nat) | GetArtifact(id: nat) | GetRun(run: nat) | Delete(id: nat)

  /** Answers that did not parse count as refusals; `unknown` marks a lost answer to a deletion. */
  datatype Reply = Page(total: nat, items: seq<Artifact>) | Item(item: Artifact) | Run(completed: bool) | Deleted
                 | Refused(unknown: bool)

  datatype Event = Asked(request: Request, reply: Reply) | Clock(now: int)

  datatype Code = Refusal(unknown: bool) | SnapshotLimit | PagesExhausted | SnapshotChanged | InvalidResponse | InvalidArguments

  // ---------------------------------------------------------------- retention

  predicate Available(a: Artifact, now: int) {
    a.name == "app-debug-apk" && !a.expired && a.expires > now
  }

  predicate Newer(a: Artifact, b: Artifact) {
    a.created > b.created || (a.created == b.created && a.id > b.id)
  }

  function Keep(xs: seq<Artifact>, now: int): (r: seq<Artifact>)
    ensures forall x :: x in r <==> x in xs && Available(x, now)
  {
    if xs == [] then []
    else
      var n := |xs| - 1;
      assert xs == xs[..n] + [xs[n]];
      Keep(xs[..n], now) + if Available(xs[n], now) then [xs[n]] else []
  }

  function Ranked(xs: seq<Artifact>, now: int): seq<Artifact> {
    Sort(Keep(xs, now), Newer)
  }

  function Reversed(xs: seq<Artifact>): (r: seq<Artifact>)
    ensures |r| == |xs| && forall x :: x in r <==> x in xs
  {
    if xs == [] then []
    else
      assert xs == [xs[0]] + xs[1..];
      Reversed(xs[1..]) + [xs[0]]
  }

  /** `_retention`: the artifacts behind the newest three, oldest first. */
  function Old(xs: seq<Artifact>, now: int): seq<Artifact> {
    var ranked := Ranked(xs, now);
    if |ranked| <= KEEP_NEWEST then [] else Reversed(ranked[KEEP_NEWEST..])
  }

  ghost predicate DistinctIds(xs: seq<Artifact>) {
    forall i, j :: 0 <= i < j < |xs| ==> xs[i].id != xs[j].id
  }

  /** The available artifacts of a listing that are newer than this one. */
  ghost function NewerOnes(xs: seq<Artifact>, now: int, x: Artifact): set<Artifact> {
    set y | y in xs && Available(y, now) && Newer(y, x)
  }

  /** Available, and at least three available artifacts of the listing are newer. */
  ghost predicate BehindThree(xs: seq<Artifact>, now: int, x: Artifact) {
    x in xs && Available(x, now) && |NewerOnes(xs, now, x)| >= 3
  }

  lemma NewerStrict()
    ensures StrictOrder(Newer)
  {}

  lemma {:induction false} KeepDistinct(xs: seq<Artifact>, now: int)
    requires DistinctIds(xs)
    ensures DistinctIds(Keep(xs, now))
  {
    if xs != [] {
      var n := |xs| - 1;
      KeepDistinct(xs[..n], now);
      var kept := Keep(xs[..n], now);
      forall i | 0 <= i < |kept| ensures kept[i].id != xs[n].id {
        assert kept[i] in xs[..n];
      }
    }
  }

  /** The ranking is strictly newest first and holds exactly the available artifacts. */
  lemma RankedFacts(xs: seq<Artifact>, now: int)
    requires DistinctIds(xs)
    ensures Sorted(Ranked(xs, now), Newer)
    ensures forall x :: x in Ranked(xs, now) <==> x in xs && Available(x, now)
  {
    var kept := Keep(xs, now);
    KeepDistinct(xs, now);
    NewerStrict();
    assert Comparable(kept, Newer);
    SortPermutes(kept, Newer);
    SortSorts(kept, Newer);
    forall x ensures x in Ranked(xs, now) <==> x in kept {
      assert x in Ranked(xs, now) <==> x in multiset(Ranked(xs, now));
      assert x in kept <==> x in multiset(kept);
    }
  }

  ghost function Elements(xs: seq<Artifact>): set<Artifact> {
    set x | x in xs
  }

  lemma {:induction false} SortedSize(xs: seq<Artifact>)
    requires Sorted(xs, Newer)
    ensures |Elements(xs)| == |xs|
  {
    if xs != [] {
      var n := |xs| - 1;
      SortedSize(xs[..n]);
      assert xs == xs[..n] + [xs[n]];
      assert Elements(xs) == Elements(xs[..n]) + {xs[n]};
      assert xs[n] !in xs[..n];
    }
  }

  /** The element at position `i` of the ranking has exactly `i` newer ones. */
  lemma PositionIsRank(xs: seq<Artifact>, now: int, i: nat)
    requires DistinctIds(xs) && i < |Ranked(xs, now)|
    ensures |NewerOnes(xs, now, Ranked(xs, now)[i])| == i
  {
    var ranked := Ranked(xs, now);
    RankedFacts(xs, now);
    SortedSize(ranked[..i]);
    forall y ensures y in NewerOnes(xs, now, ranked[i]) <==> y in Elements(ranked[..i]) {
      if y in NewerOnes(xs, now, ranked[i]) {
        assert y in ranked;
        var j :| 0 <= j < |ranked| && ranked[j] == y;
        assert j < i;
        assert ranked[..i][j] == y;
      }
    }
    assert NewerOnes(xs, now, ranked[i]) == Elements(ranked[..i]);
  }

  /** `_retention` offers an artifact for deletion exactly when three newer ones remain. */
  lemma OldMeansBehindThree(xs: seq<Artifact>, now: int, x: Artifact)
    requires DistinctIds(xs)
    ensures x in Old(xs, now) <==> BehindThree(xs, now, x)
  {
    var ranked := Ranked(xs, now);
    RankedFacts(xs, now);
    if x in ranked {
      var i :| 0 <= i < |ranked| && ranked[i] == x;
      PositionIsRank(xs, now, i);
      if i >= KEEP_NEWEST {
        assert ranked[KEEP_NEWEST..][i - KEEP_NEWEST] == x;
      } else if |ranked| > KEEP_NEWEST {
        forall j | KEEP_NEWEST <= j < |ranked| ensures ranked[j] != x {
          assert Newer(ranked[i], ranked[j]);
        }
      }
    }
  }

  lemma OldDistinct(xs: seq<Artifact>, now: int)
    requires DistinctIds(xs)
    ensures DistinctElements(Old(xs, now)) && forall x :: x in Old(xs, now) ==> x in xs
  {
    RankedFacts(xs, now);
    var ranked := Ranked(xs, now);
    if |ranked| > KEEP_NEWEST {
      assert DistinctElements(ranked[KEEP_NEWEST..]) by {
        assert Sorted(ranked[KEEP_NEWEST..], Newer);
      }
      ReversedDistinct(ranked[KEEP_NEWEST..]);
      forall x | x in Old(xs, now) ensures x in xs {
        assert x in ranked;
      }
    }
  }

  lemma OldIds(xs: seq<Artifact>, now: int)
    requires DistinctIds(xs)
    ensures DistinctIds(Old(xs, now))
  {
    OldDistinct(xs, now);
    var behind := Old(xs, now);
    forall i, j | 0 <= i < j < |behind| ensures behind[i].id != behind[j].id {
      assert behind[i] in xs && behind[j] in xs;
    }
  }

  ghost predicate DistinctElements(xs: seq<Artifact>) {
    forall i, j :: 0 <= i < j < |xs| ==> xs[i] != xs[j]
  }

  lemma {:induction false} ReversedDistinct(xs: seq<Artifact>)
    requires DistinctElements(xs)
    ensures DistinctElements(Reversed(xs))
  {
    if xs != [] {
      ReversedDistinct(xs[1..]);
      var r := Reversed(xs[1..]);
      forall i | 0 <= i < |r| ensures r[i] != xs[0] {
        assert r[i] in xs[1..];
      }
    }
  }

  // ---------------------------------------------------------------- order

  /** Earlier elements were created earlier; of those created together, the smaller id comes first. */
  ghost predicate OldestFirst(xs: seq<Artifact>) {
    forall i, j :: 0 <= i < j < |xs| ==>
      xs[i].created < xs[j].created || (xs[i].created == xs[j].created && xs[i].id < xs[j].id)
  }

  lemma {:induction false} ReversedAt(xs: seq<Artifact>, k: nat)
    requires k < |xs|
    ensures Reversed(xs)[k] == xs[|xs| - 1 - k]
  {
    if k < |xs| - 1 {
      ReversedAt(xs[1..], k);
    }
  }

  /** `_retention` offers the oldest artifact first. */
  lemma OldInOrder(xs: seq<Artifact>, now: int)
    requires DistinctIds(xs)
    ensures OldestFirst(Old(xs, now))
  {
    RankedFacts(xs, now);
    var ranked := Ranked(xs, now);
    if |ranked| > KEEP_NEWEST {
      var behind := ranked[KEEP_NEWEST..];
      forall i, j | 0 <= i < j < |behind|
        ensures var a, b := Reversed(behind)[i], Reversed(behind)[j];
                a.created < b.created || (a.created == b.created && a.id < b.id)
      {
        ReversedAt(behind, i);
        ReversedAt(behind, j);
        assert Newer(behind[|behind| - 1 - j], behind[|behind| - 1 - i]);
      }
    }
  }

  /** What is offered, told by the fields: an unexpired debug artifact with at least three newer ones in the listing. */
  lemma OldByFields(xs: seq<Artifact>, now: int, x: Artifact)
    requires DistinctIds(xs)
    ensures x in Old(xs, now) <==>
            && x in xs && x.name == "app-debug-apk" && !x.expired && x.expires > now
            && 3 <= |set y | y in xs && y.name == "app-debug-apk" && !y.expired && y.expires > now
                             && (y.created > x.created || (y.created == x.created && y.id > x.id))|
  {
    OldMeansBehindThree(xs, now, x);
    assert NewerOnes(xs, now, x) == set y | y in xs && y.name == "app-debug-apk" && !y.expired && y.expires > now
                                            && (y.created > x.created || (y.created == x.created && y.id > x.id));
  }
}
