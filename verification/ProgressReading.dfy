/** Which lines are progress trailers, and which messages the reader accepts or refuses. */
module ProgressReading {
  import opened Wrappers
  import opened ProgressTrailers

  // ---------------------------------------------------------------- lines

  /** `Larenor-<kind>-Progress: done/total (percent%)`, with any decimal numerals. */
  ghost predicate TrailerShape(line: string, k: Kind, done: string, total: string, percent: string) {
    && line == Name(k) + (": " + (done + ("/" + (total + (" (" + (percent + "%)"))))))
    && Digits(done) && Digits(total) && IsPercent(percent)
  }

  lemma ShapeReads(line: string, k: Kind, done: string, total: string, percent: string)
    requires TrailerShape(line, k, done, total, percent)
    ensures ParseTrailer(line) == Some(Trailer(k, ParseDecimal(done), ParseDecimal(total), percent))
  {
    var c := percent + "%)";
    var b := total + (" (" + c);
    ParseNamed(k, ": " + (done + ("/" + b)));
    DoneReads(done, b, k);
    TotalReads(total, c, k, ParseDecimal(done));
    ReadPercent(percent, k, ParseDecimal(done), ParseDecimal(total));
  }

  lemma Parts(x: string, y: string)
    ensures (x + y)[..|x|] == x && (x + y)[|x|..] == y
  {}

  lemma Rejoined(x: string, n: nat)
    requires n < |x|
    ensures x == x[..n] + x[n..] && x[n..] == [x[n]] + x[n + 1..]
  {}

  lemma AfterColon(a: string)
    ensures StartsWith(": " + a, ": ") && (": " + a)[2..] == a
  {
    Parts(": ", a);
  }

  lemma AfterDone(done: string, b: string)
    requires Digits(done)
    ensures var a := done + ("/" + b);
            DigitRun(a) == |done| < |a| && a[|done|] == '/' && a[..|done|] == done && a[|done| + 1..] == b
  {
    RunOfDigits(done, "/" + b);
    Parts(done, "/" + b);
  }

  lemma DoneReads(done: string, b: string, k: Kind)
    requires Digits(done)
    ensures ParseValue(": " + (done + ("/" + b)), k) == ParseTotal(b, k, ParseDecimal(done))
  {
    var a := done + ("/" + b);
    AfterColon(a);
    AfterDone(done, b);
    ReadsFrom(": " + a, a, |done|, k);
  }

  /** After `: `, digits and a slash, the rest is a total. */
  lemma ReadsFrom(v: string, a: string, n: nat, k: Kind)
    requires StartsWith(v, ": ") && v[2..] == a && n == DigitRun(a) && 0 < n < |a| && a[n] == '/'
    ensures ParseValue(v, k) == ParseTotal(a[n + 1..], k, ParseDecimal(a[..n]))
  {}

  lemma TotalReads(total: string, c: string, k: Kind, done: nat)
    requires Digits(total)
    ensures ParseTotal(total + (" (" + c), k, done) == ParsePercent(c, k, done, ParseDecimal(total))
  {
    var r := " (" + c;
    var b := total + r;
    RunOfDigits(total, r);
    assert b[..|total|] == total && b[|total|..] == r && r[..2] == " (" && b[|total| + 2..] == c;
  }

  /** Every line the reader takes for a trailer has that shape. */
  lemma ReadHasShape(line: string) returns (done: string, total: string, percent: string)
    requires ParseTrailer(line).Some?
    ensures var t := ParseTrailer(line).value;
            && TrailerShape(line, t.kind, done, total, percent)
            && t.done == ParseDecimal(done) && t.total == ParseDecimal(total) && t.percent == percent
  {
    var k := if StartsWith(line, Name(Queue)) then Queue else Feature;
    var v := line[|Name(k)|..];
    Regained(line, Name(k));
    ParseNamed(k, v);
    done, total, percent := ValueHasShape(v, k);
  }

  lemma ValueHasShape(v: string, k: Kind) returns (done: string, total: string, percent: string)
    requires ParseValue(v, k).Some?
    ensures v == ": " + (done + ("/" + (total + (" (" + (percent + "%)")))))
    ensures Digits(done) && Digits(total) && IsPercent(percent)
    ensures ParseValue(v, k) == Some(Trailer(k, ParseDecimal(done), ParseDecimal(total), percent))
  {
    var b;
    done, b := ValueParts(v, k);
    total, percent := TotalHasShape(b, k, ParseDecimal(done));
  }

  lemma RestAfterSlash(a: string, n: nat)
    requires n < |a| && a[n] == '/'
    ensures a == a[..n] + ("/" + a[n + 1..])
  {
    Rejoined(a, n);
  }

  lemma ValueParts(v: string, k: Kind) returns (done: string, b: string)
    requires ParseValue(v, k).Some?
    ensures v == ": " + (done + ("/" + b)) && Digits(done)
    ensures ParseValue(v, k) == ParseTotal(b, k, ParseDecimal(done))
  {
    var a := v[2..];
    var n := DigitRun(a);
    done, b := a[..n], a[n + 1..];
    RestAfterSlash(a, n);
    Regained(v, ": ");
  }

  lemma Regained(s: string, p: string)
    requires StartsWith(s, p)
    ensures s == p + s[|p|..]
  {}

  lemma PercentShape(c: string, k: Kind, done: nat, total: nat) returns (percent: string)
    requires ParsePercent(c, k, done, total).Some?
    ensures c == percent + "%)" && IsPercent(percent) && ParsePercent(c, k, done, total) == Some(Trailer(k, done, total, percent))
  {
    percent := c[..|c| - 2];
  }

  lemma TotalParts(b: string, k: Kind, done: nat) returns (total: string, c: string)
    requires ParseTotal(b, k, done).Some?
    ensures b == total + (" (" + c) && Digits(total)
    ensures ParseTotal(b, k, done) == ParsePercent(c, k, done, ParseDecimal(total))
  {
    var m := DigitRun(b);
    total, c := b[..m], b[m + 2..];
    Regained(b[m..], " (");
    Parts(total, b[m..]);
  }

  lemma TotalHasShape(b: string, k: Kind, done: nat) returns (total: string, percent: string)
    requires ParseTotal(b, k, done).Some?
    ensures b == total + (" (" + (percent + "%)")) && Digits(total) && IsPercent(percent)
    ensures ParseTotal(b, k, done) == Some(Trailer(k, done, ParseDecimal(total), percent))
  {
    var c;
    total, c := TotalParts(b, k, done);
    percent := PercentShape(c, k, done, ParseDecimal(total));
  }

  // ---------------------------------------------------------------- messages

  /** The only line that begins with the name of this kind. */
  ghost predicate OnlyLine(lines: seq<string>, k: Kind, i: nat) {
    i < |lines| && HasPrefix(lines[i], k) && forall j :: 0 <= j < |lines| && j != i ==> !HasPrefix(lines[j], k)
  }

  lemma {:induction false} CountZero(lines: seq<string>, p: string -> bool)
    ensures CountIf(lines, p) == 0 <==> forall j :: 0 <= j < |lines| ==> !p(lines[j])
  {
    if lines != [] {
      CountZero(lines[1..], p);
      assert forall j :: 0 <= j < |lines| - 1 ==> lines[1..][j] == lines[j + 1];
    }
  }

  ghost predicate Single(lines: seq<string>, p: string -> bool, i: nat) {
    i < |lines| && p(lines[i]) && forall j :: 0 <= j < |lines| && j != i ==> !p(lines[j])
  }

  lemma {:induction false} CountOne(lines: seq<string>, p: string -> bool)
    ensures CountIf(lines, p) == 1 <==> exists i :: Single(lines, p, i)
  {
    if lines != [] {
      var rest := lines[1..];
      CountZero(rest, p);
      CountOne(rest, p);
      if CountIf(lines, p) == 1 {
        var i := WhereSingle(lines, p);
      }
      if i :| Single(lines, p, i) {
        SingleCounts(lines, p, i);
      }
    }
  }

  lemma {:induction false} WhereSingle(lines: seq<string>, p: string -> bool) returns (i: nat)
    requires CountIf(lines, p) == 1
    ensures Single(lines, p, i)
  {
    var rest := lines[1..];
    if p(lines[0]) {
      i := 0;
      CountZero(rest, p);
      forall j | 0 < j < |lines| ensures !p(lines[j]) {
        assert rest[j - 1] == lines[j];
      }
    } else {
      var n := WhereSingle(rest, p);
      i := n + 1;
      forall j | 0 <= j < |lines| && j != i ensures !p(lines[j]) {
        assert j > 0 ==> rest[j - 1] == lines[j];
      }
    }
  }

  lemma {:induction false} SingleCounts(lines: seq<string>, p: string -> bool, i: nat)
    requires Single(lines, p, i)
    ensures CountIf(lines, p) == 1
  {
    var rest := lines[1..];
    if i == 0 {
      forall j | 0 <= j < |rest| ensures !p(rest[j]) {
        assert rest[j] == lines[j + 1];
      }
      CountZero(rest, p);
    } else {
      assert Single(rest, p, i - 1) by {
        forall j | 0 <= j < |rest| && j != i - 1 ensures !p(rest[j]) {
          assert rest[j] == lines[j + 1];
        }
      }
      SingleCounts(rest, p, i - 1);
    }
  }

  lemma OnlyLineCounts(lines: seq<string>, k: Kind)
    ensures CountIf(lines, Named(k)) == 1 <==> exists i :: OnlyLine(lines, k, i)
  {
    CountOne(lines, Named(k));
    if i :| Single(lines, Named(k), i) {
      assert OnlyLine(lines, k, i);
    }
    if i :| OnlyLine(lines, k, i) {
      assert Single(lines, Named(k), i);
    }
  }

  /** What is collected from lines of which only these may give anything. */
  function Found<T>(x: Option<T>): seq<T> {
    if x.Some? then [x.value] else []
  }

  lemma {:induction false} CollectNothing<T>(lines: seq<string>, f: string -> Option<T>)
    requires forall i :: 0 <= i < |lines| ==> f(lines[i]).None?
    ensures Collect(lines, f) == []
  {
    if lines != [] {
      CollectNothing(lines[1..], f);
    }
  }

  lemma CollectAround<T>(before: seq<string>, x: string, after: seq<string>, f: string -> Option<T>)
    requires (forall i :: 0 <= i < |before| ==> f(before[i]).None?) && forall i :: 0 <= i < |after| ==> f(after[i]).None?
    ensures Collect(before + ([x] + after), f) == Found(f(x))
  {
    CollectConcat(before, [x] + after, f);
    CollectConcat([x], after, f);
    CollectNothing(before, f);
    CollectNothing(after, f);
    CollectSingle(x, f);
  }

  lemma CollectSingle<T>(x: string, f: string -> Option<T>)
    ensures Collect([x], f) == Found(f(x))
  {
    assert [x][1..] == [];
    assert Collect([], f) == [];
  }

  lemma Around(lines: seq<string>, i: nat)
    requires i < |lines|
    ensures lines == lines[..i] + ([lines[i]] + lines[i + 1..])
  {}

  /** No other line than this one gives anything. */
  ghost predicate NoneBut<T>(lines: seq<string>, f: string -> Option<T>, i: int) {
    forall j :: 0 <= j < |lines| && j != i ==> f(lines[j]).None?
  }

  lemma CollectOne<T>(lines: seq<string>, f: string -> Option<T>, i: nat)
    requires i < |lines| && NoneBut(lines, f, i)
    ensures Collect(lines, f) == Found(f(lines[i]))
  {
    var before, after := lines[..i], lines[i + 1..];
    forall j | 0 <= j < |before| ensures f(before[j]).None? {
      assert before[j] == lines[j];
    }
    forall j | 0 <= j < |after| ensures f(after[j]).None? {
      assert after[j] == lines[i + 1 + j];
    }
    Around(lines, i);
    CollectAround(before, lines[i], after, f);
  }

  lemma CollectTwo<T>(before: seq<string>, after: seq<string>, f: string -> Option<T>, i: nat, j: nat)
    requires i < |before| && NoneBut(before, f, i) && j < |after| && NoneBut(after, f, j)
    ensures Collect(before + after, f) == Found(f(before[i])) + Found(f(after[j]))
  {
    CollectConcat(before, after, f);
    CollectOne(before, f, i);
    CollectOne(after, f, j);
  }

  /** Only the two named lines can be trailers. */
  lemma OthersAreNone(lines: seq<string>, i: nat, j: nat, l: nat)
    requires OnlyLine(lines, Queue, i) && OnlyLine(lines, Feature, j) && l < |lines| && l != i && l != j
    ensures ParseTrailer(lines[l]).None?
  {
    TrailerHasPrefix(lines[l]);
  }

  lemma KindOfTotal(b: string, k: Kind, done: nat)
    ensures ParseTotal(b, k, done).Some? ==> ParseTotal(b, k, done).value.kind == k
  {}

  lemma KindOfValue(s: string, k: Kind)
    ensures ParseValue(s, k).Some? ==> ParseValue(s, k).value.kind == k
  {
    if StartsWith(s, ": ") {
      var a := s[2..];
      var n := DigitRun(a);
      if 0 < n < |a| {
        KindOfTotal(a[n + 1..], k, ParseDecimal(a[..n]));
      }
    }
  }

  lemma KindByName(line: string, k: Kind)
    requires HasPrefix(line, k)
    ensures ParseTrailer(line).Some? ==> ParseTrailer(line).value.kind == k
  {
    var v := line[|Name(k)|..];
    assert line == Name(k) + v;
    ParseNamed(k, v);
    KindOfValue(v, k);
  }

  /** No line but these two gives anything. */
  ghost predicate NoneButTwo<T>(lines: seq<string>, f: string -> Option<T>, i: int, j: int) {
    forall l :: 0 <= l < |lines| && l != i && l != j ==> f(lines[l]).None?
  }

  lemma NoneBefore<T>(lines: seq<string>, f: string -> Option<T>, i: nat, j: nat)
    requires i < j < |lines| && NoneButTwo(lines, f, i, j)
    ensures NoneBut(lines[..i + 1], f, i)
  {}

  lemma NoneAfter<T>(lines: seq<string>, f: string -> Option<T>, i: nat, j: nat)
    requires i < j < |lines| && NoneButTwo(lines, f, i, j)
    ensures NoneBut(lines[i + 1..], f, j - i - 1)
  {
    var after := lines[i + 1..];
    forall l | 0 <= l < |after| && l != j - i - 1 ensures f(after[l]).None? {
      assert after[l] == lines[i + 1 + l];
    }
  }

  lemma Halves(lines: seq<string>, i: nat, j: nat) returns (before: seq<string>, after: seq<string>)
    requires i < j < |lines|
    ensures before == lines[..i + 1] && after == lines[i + 1..] && lines == before + after
    ensures |before| == i + 1 && |after| == |lines| - i - 1
    ensures before[i] == lines[i] && after[j - i - 1] == lines[j]
  {
    before, after := lines[..i + 1], lines[i + 1..];
  }

  lemma FoundTwo<T>(lines: seq<string>, f: string -> Option<T>, i: nat, j: nat)
    requires i < j < |lines| && NoneButTwo(lines, f, i, j)
    ensures Collect(lines, f) == Found(f(lines[i])) + Found(f(lines[j]))
  {
    var before, after := Halves(lines, i, j);
    NoneBefore(lines, f, i, j);
    NoneAfter(lines, f, i, j);
    CollectTwo(before, after, f, i, j - i - 1);
  }

  /** The two trailers of a message whose names occur on one line each, in the order of the lines. */
  lemma FoundTrailers(lines: seq<string>, i: nat, j: nat)
    requires OnlyLine(lines, Queue, i) && OnlyLine(lines, Feature, j)
    ensures i != j
    ensures Collect(lines, ParseTrailer) ==
            if i < j then Found(ParseTrailer(lines[i])) + Found(ParseTrailer(lines[j]))
            else Found(ParseTrailer(lines[j])) + Found(ParseTrailer(lines[i]))
  {
    PrefixesDiffer(lines[i]);
    forall l | 0 <= l < |lines| && l != i && l != j ensures ParseTrailer(lines[l]).None? {
      OthersAreNone(lines, i, j, l);
    }
    if i < j {
      FoundTwo(lines, ParseTrailer, i, j);
    } else {
      FoundTwo(lines, ParseTrailer, j, i);
    }
  }

  lemma PrefixesDiffer(line: string)
    ensures !(HasPrefix(line, Queue) && HasPrefix(line, Feature))
  {
    if StartsWith(line, Name(Queue)) {
      assert line[..|Name(Queue)|][8] == line[8] == 'Q';
    }
    if StartsWith(line, Name(Feature)) {
      assert line[..|Name(Feature)|][8] == line[8] == 'F';
    }
  }

  /** Each name is on exactly one line. */
  ghost predicate NamedOnceEach(lines: seq<string>) {
    (exists i :: OnlyLine(lines, Queue, i)) && (exists j :: OnlyLine(lines, Feature, j))
  }

  /** The values are possible and the percentage is the one they give. */
  ghost predicate Consistent(t: Trailer, pct: Format) {
    0 < t.total && t.done <= t.total && t.percent == pct(t.done, t.total)
  }

  /** A message without exactly one line for each name is refused for that. */
  lemma NamesDecide(message: string, pct: Format)
    ensures !NamedOnceEach(Lines(message)) ==> ParseMessage(message, pct) == Failure(MissingOrDuplicate)
  {
    OnlyLineCounts(Lines(message), Queue);
    OnlyLineCounts(Lines(message), Feature);
  }

  /** The verdict on the trailers of a message with one line for each name. */
  ghost function Verdict(q: Option<Trailer>, f: Option<Trailer>, queueFirst: bool, pct: Format): Result<Progress, Error> {
    if q.None? || f.None? then Failure(Malformed)
    else if Consistent(q.value, pct) && Consistent(f.value, pct)
    then Success(Progress(q.value.done, q.value.total, f.value.done, f.value.total))
    else
      var bad := if Consistent(q.value, pct) then f.value
                 else if Consistent(f.value, pct) then q.value
                 else if queueFirst then q.value else f.value;
      Failure(if bad.total == 0 || bad.done > bad.total then InvalidValue else InvalidPercentage)
  }

  lemma JudgeIsVerdict(q: Option<Trailer>, f: Option<Trailer>, queueFirst: bool, pct: Format)
    requires (q.Some? ==> q.value.kind == Queue) && (f.Some? ==> f.value.kind == Feature)
    ensures Judge(1, 1, if queueFirst then Found(q) + Found(f) else Found(f) + Found(q), pct) == Verdict(q, f, queueFirst, pct)
  {}

  /**
   A message with one line for each name is malformed unless both lines are trailers; otherwise it is accepted, with their
   values, exactly when both are consistent, and the first line that is not gives the refusal.
   */
  lemma TrailersDecide(message: string, pct: Format, i: nat, j: nat)
    requires OnlyLine(Lines(message), Queue, i) && OnlyLine(Lines(message), Feature, j)
    ensures ParseMessage(message, pct) == Verdict(ParseTrailer(Lines(message)[i]), ParseTrailer(Lines(message)[j]), i < j, pct)
  {
    var lines := Lines(message);
    OnlyLineCounts(lines, Queue);
    OnlyLineCounts(lines, Feature);
    FoundTrailers(lines, i, j);
    KindByName(lines[i], Queue);
    KindByName(lines[j], Feature);
    JudgeIsVerdict(ParseTrailer(lines[i]), ParseTrailer(lines[j]), i < j, pct);
  }
}
