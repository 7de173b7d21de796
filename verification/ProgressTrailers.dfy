/** The two progress trailers of a commit message: the writer, the reader, and that the reader gives back what was written. */
module ProgressTrailers {
  import opened Wrappers

  datatype Kind = Queue | Feature

  /** Finished and total counts of the whole queue and of the features. */
  datatype Progress = Progress(queueDone: nat, queueTotal: nat, featureDone: nat, featureTotal: nat)

  datatype Error = MissingOrDuplicate | Malformed | InvalidValue | InvalidPercentage | InvalidMessage | ReservedTrailer

  /** What `progress_for` lets through. */
  predicate ValidProgress(p: Progress) {
    0 < p.queueTotal && p.queueDone <= p.queueTotal && 0 < p.featureTotal && p.featureDone <= p.featureTotal
  }

  /** How a finished and a total count are formatted as a percentage: the same formatting on both sides. */
  type Format = (nat, nat) -> string

  ghost predicate Formats(pct: Format) {
    forall d: nat, t: nat :: 0 < t && d <= t ==> IsPercent(pct(d, t))
  }

  // ---------------------------------------------------------------- text

  predicate Digit(c: char) { '0' <= c <= '9' }

  predicate Digits(s: string) { s != "" && forall i :: 0 <= i < |s| ==> Digit(s[i]) }

  /** `[0-9]+\\.[0-9]` */
  predicate IsPercent(s: string) {
    |s| >= 3 && Digit(s[|s| - 1]) && s[|s| - 2] == '.' && Digits(s[..|s| - 2])
  }

  function Lines(s: string): (r: seq<string>)
    ensures r != []
    ensures forall l :: l in r ==> '\n' !in l
  {
    if s == "" then [""]
    else if s[0] == '\n' then [""] + Lines(s[1..])
    else
      var rest := Lines(s[1..]);
      [[s[0]] + rest[0]] + rest[1..]
  }

  lemma {:induction false} LinesConcat(a: string, b: string)
    ensures Lines(a + "\n" + b) == Lines(a) + Lines(b)
  {
    if a == "" {
      assert a + "\n" + b == ['\n'] + b;
      assert (['\n'] + b)[1..] == b;
    } else {
      var t := a + "\n" + b;
      assert t[0] == a[0] && t[1..] == a[1..] + "\n" + b;
      LinesConcat(a[1..], b);
    }
  }

  lemma {:induction false} OneLine(s: string)
    requires '\n' !in s
    ensures Lines(s) == [s]
  {
    if s != "" {
      assert '\n' !in s[1..];
      OneLine(s[1..]);
      assert [s[0]] + s[1..] == s;
    }
  }

  function Decimal(n: nat): (s: string)
    ensures Digits(s)
  {
    if n < 10 then ["0123456789"[n]] else Decimal(n / 10) + ["0123456789"[n % 10]]
  }

  function ParseDecimal(s: string): nat
    requires forall i :: 0 <= i < |s| ==> Digit(s[i])
  {
    if s == "" then 0
    else
      var n := |s| - 1;
      assert Digit(s[n]);
      ParseDecimal(s[..n]) * 10 + (s[n] as int - '0' as int)
  }

  lemma {:induction false} DecimalRoundTrip(n: nat)
    ensures ParseDecimal(Decimal(n)) == n
  {
    var s := Decimal(n);
    if n < 10 {
      assert s[..0] == "";
    } else {
      DecimalRoundTrip(n / 10);
      assert s[..|s| - 1] == Decimal(n / 10);
    }
  }

  // ---------------------------------------------------------------- reading

  function Name(k: Kind): string {
    match k
    case Queue => "Larenor-Queue-Progress"
    case Feature => "Larenor-Feature-Progress"
  }

  predicate StartsWith(s: string, p: string) { |p| <= |s| && s[..|p|] == p }

  /** After the name, blanks and tabs and then a colon. */
  predicate ColonNext(s: string) {
    s != "" && (s[0] == ':' || ((s[0] == ' ' || s[0] == '\t') && ColonNext(s[1..])))
  }

  predicate HasPrefix(line: string, k: Kind) {
    StartsWith(line, Name(k)) && ColonNext(line[|Name(k)|..])
  }

  function DigitRun(s: string): (n: nat)
    ensures n <= |s| && (forall i :: 0 <= i < n ==> Digit(s[i])) && (n < |s| ==> !Digit(s[n]))
  {
    if s == "" || !Digit(s[0]) then 0 else 1 + DigitRun(s[1..])
  }

  datatype Trailer = Trailer(kind: Kind, done: nat, total: nat, percent: string)

  /** `percent%)` to the end of the line. */
  function ParsePercent(c: string, k: Kind, done: nat, total: nat): Option<Trailer> {
    if |c| >= 2 && c[|c| - 2..] == "%)" && IsPercent(c[..|c| - 2]) then Some(Trailer(k, done, total, c[..|c| - 2])) else None
  }

  /** `total (percent%)` */
  function ParseTotal(b: string, k: Kind, done: nat): Option<Trailer> {
    var m := DigitRun(b);
    if m == 0 || !StartsWith(b[m..], " (") then None else ParsePercent(b[m + 2..], k, done, ParseDecimal(b[..m]))
  }

  /** The part of a trailer after its name: `: done/total (percent%)`. */
  function ParseValue(s: string, k: Kind): Option<Trailer> {
    if !StartsWith(s, ": ") then None
    else
      var a := s[2..];
      var n := DigitRun(a);
      if n == 0 || n == |a| || a[n] != '/' then None else ParseTotal(a[n + 1..], k, ParseDecimal(a[..n]))
  }

  function ParseTrailer(line: string): Option<Trailer> {
    if StartsWith(line, Name(Queue)) then ParseValue(line[|Name(Queue)|..], Queue)
    else if StartsWith(line, Name(Feature)) then ParseValue(line[|Name(Feature)|..], Feature)
    else None
  }

  function CountIf(lines: seq<string>, p: string -> bool): nat {
    if lines == [] then 0 else (if p(lines[0]) then 1 else 0) + CountIf(lines[1..], p)
  }

  function Collect<T>(lines: seq<string>, f: string -> Option<T>): seq<T> {
    if lines == [] then [] else (if f(lines[0]).Some? then [f(lines[0]).value] else []) + Collect(lines[1..], f)
  }

  function Named(k: Kind): string -> bool {
    line => HasPrefix(line, k)
  }

  function CheckTrailer(t: Trailer, pct: Format): Option<Error> {
    if t.total == 0 || t.done > t.total then Some(InvalidValue)
    else if t.percent != pct(t.done, t.total) then Some(InvalidPercentage)
    else None
  }

  /** The verdict on what was found: the number of lines with each name, and the well-formed trailers. */
  function Judge(queues: nat, features: nat, ts: seq<Trailer>, pct: Format): Result<Progress, Error> {
    if queues != 1 || features != 1 then Failure(MissingOrDuplicate)
    else if |ts| != 2 then Failure(Malformed)
    else if CheckTrailer(ts[0], pct).Some? then Failure(CheckTrailer(ts[0], pct).value)
    else if CheckTrailer(ts[1], pct).Some? then Failure(CheckTrailer(ts[1], pct).value)
    else if ts[0].kind == Queue && ts[1].kind == Feature then
      Success(Progress(ts[0].done, ts[0].total, ts[1].done, ts[1].total))
    else if ts[0].kind == Feature && ts[1].kind == Queue then
      Success(Progress(ts[1].done, ts[1].total, ts[0].done, ts[0].total))
    else Failure(MissingOrDuplicate)
  }

  function ParseMessage(message: string, pct: Format): Result<Progress, Error> {
    var lines := Lines(message);
    Judge(CountIf(lines, Named(Queue)), CountIf(lines, Named(Feature)), Collect(lines, ParseTrailer), pct)
  }

  // ---------------------------------------------------------------- writing

  /** The characters Python strips as white space. */
  predicate Space(c: char) {
    var u := c as int;
    9 <= u <= 13 || 0x1C <= u <= 0x20 || u == 0x85 || u == 0xA0 || u == 0x1680 || 0x2000 <= u <= 0x200A
    || u == 0x2028 || u == 0x2029 || u == 0x202F || u == 0x205F || u == 0x3000
  }

  /** Case-insensitive comparison of the letters in the reserved names; the long s matches an s. */
  function Fold(c: char): char {
    if 'A' <= c <= 'Z' then (c as int + 32) as char else if c == '\U{17F}' then 's' else c
  }

  predicate FoldedPrefix(s: string, p: string) {
    |p| <= |s| && forall i :: 0 <= i < |p| ==> Fold(s[i]) == Fold(p[i])
  }

  predicate Reserved(line: string) {
    || (FoldedPrefix(line, Name(Queue)) && ColonNext(line[|Name(Queue)|..]))
    || (FoldedPrefix(line, Name(Feature)) && ColonNext(line[|Name(Feature)|..]))
  }

  function StripEnd(s: string): (r: string)
    ensures |r| <= |s| && s[..|r|] == r && forall i :: |r| <= i < |s| ==> s[i] == '\r' || s[i] == '\n'
  {
    if s != "" && (s[|s| - 1] == '\r' || s[|s| - 1] == '\n') then StripEnd(s[..|s| - 1]) else s
  }

  /** The value of one trailer: `done/total (percent%)`. */
  function Value(done: nat, total: nat, pct: Format): string {
    Decimal(done) + "/" + Decimal(total) + " (" + pct(done, total) + "%)"
  }

  function TrailerLine(k: Kind, done: nat, total: nat, pct: Format): string {
    Name(k) + ": " + Value(done, total, pct)
  }

  function MessageWithProgress(message: string, p: Progress, pct: Format): Result<string, Error> {
    if (forall i :: 0 <= i < |message| ==> Space(message[i])) || '\0' in message then Failure(InvalidMessage)
    else if exists l :: l in Lines(message) && Reserved(l) then Failure(ReservedTrailer)
    else
      Success(StripEnd(message) + "\n\n" + TrailerLine(Queue, p.queueDone, p.queueTotal, pct) + "\n"
              + TrailerLine(Feature, p.featureDone, p.featureTotal, pct) + "\n")
  }

  // ---------------------------------------------------------------- the round trip

  lemma {:induction false} RunOfDigits(d: string, rest: string)
    requires forall i :: 0 <= i < |d| ==> Digit(d[i])
    requires rest == "" || !Digit(rest[0])
    ensures DigitRun(d + rest) == |d|
  {
    if d == "" {
      assert d + rest == rest;
    } else {
      RunOfDigits(d[1..], rest);
      assert (d + rest)[1..] == d[1..] + rest;
    }
  }

  lemma ReadPercent(q: string, k: Kind, done: nat, total: nat)
    requires IsPercent(q)
    ensures ParsePercent(q + "%)", k, done, total) == Some(Trailer(k, done, total, q))
  {
    var c := q + "%)";
    assert c[|c| - 2..] == "%)" && c[..|c| - 2] == q;
  }

  lemma ReadTotal(total: nat, c: string, k: Kind, done: nat)
    ensures ParseTotal(Decimal(total) + (" (" + c), k, done) == ParsePercent(c, k, done, total)
  {
    var t, r := Decimal(total), " (" + c;
    var b := t + r;
    RunOfDigits(t, r);
    DecimalRoundTrip(total);
    assert b[..|t|] == t && b[|t|..] == r && r[..2] == " (" && b[|t| + 2..] == c;
  }

  lemma ReadDone(done: nat, b: string, k: Kind)
    ensures ParseValue(": " + (Decimal(done) + ("/" + b)), k) == ParseTotal(b, k, done)
  {
    var d, r := Decimal(done), "/" + b;
    var a := d + r;
    var s := ": " + a;
    assert s[..2] == ": " && s[2..] == a;
    RunOfDigits(d, r);
    DecimalRoundTrip(done);
    assert a[..|d|] == d && a[|d|] == '/' && a[|d| + 1..] == b;
  }

  lemma Regroup(d: string, t: string, q: string)
    ensures d + "/" + t + " (" + q + "%)" == d + ("/" + (t + (" (" + (q + "%)"))))
  {}

  /** What the writer puts after a name, the reader takes apart again. */
  lemma ReadValue(k: Kind, done: nat, total: nat, pct: Format)
    requires IsPercent(pct(done, total))
    ensures ParseValue(": " + Value(done, total, pct), k) == Some(Trailer(k, done, total, pct(done, total)))
  {
    var c := pct(done, total) + "%)";
    var b := Decimal(total) + (" (" + c);
    Regroup(Decimal(done), Decimal(total), pct(done, total));
    ReadDone(done, b, k);
    ReadTotal(total, c, k, done);
    ReadPercent(pct(done, total), k, done, total);
  }

  lemma NamesDiffer(v: string)
    ensures !StartsWith(Name(Feature) + v, Name(Queue)) && !StartsWith(Name(Queue) + v, Name(Feature))
  {
    var f, q := Name(Feature) + v, Name(Queue) + v;
    assert f[8] == 'F' && q[8] == 'Q';
    assert f[..|Name(Queue)|][8] == f[8];
    assert |q| >= |Name(Feature)| ==> q[..|Name(Feature)|][8] == q[8];
  }

  /** A written trailer line reads back, and counts for its own name only. */
  lemma ReadTrailer(k: Kind, done: nat, total: nat, pct: Format)
    requires IsPercent(pct(done, total))
    ensures var line := TrailerLine(k, done, total, pct);
            && ParseTrailer(line) == Some(Trailer(k, done, total, pct(done, total)))
            && HasPrefix(line, k) && (forall other :: other != k ==> !HasPrefix(line, other))
            && '\n' !in line
  {
    var v := ": " + Value(done, total, pct);
    assert TrailerLine(k, done, total, pct) == Name(k) + v;
    ReadValue(k, done, total, pct);
    ValueOnOneLine(done, total, pct);
    assert v[0] == ':' && '\n' !in v;
    ParseNamed(k, v);
    SplitName(k, v);
    NamedOnce(k, v);
  }

  lemma ParseNamed(k: Kind, v: string)
    ensures ParseTrailer(Name(k) + v) == ParseValue(v, k)
  {
    SplitName(k, v);
    NamesDiffer(v);
  }

  lemma NamedOnce(k: Kind, v: string)
    ensures forall other :: other != k ==> !HasPrefix(Name(k) + v, other)
  {
    NamesDiffer(v);
  }

  lemma SplitName(k: Kind, v: string)
    ensures StartsWith(Name(k) + v, Name(k)) && (Name(k) + v)[|Name(k)|..] == v
    ensures v != "" && v[0] == ':' ==> HasPrefix(Name(k) + v, k)
    ensures '\n' !in v ==> '\n' !in Name(k) + v
  {
    assert '\n' !in Name(k);
  }

  lemma ValueOnOneLine(done: nat, total: nat, pct: Format)
    requires IsPercent(pct(done, total))
    ensures '\n' !in Value(done, total, pct)
  {
    var q := pct(done, total);
    assert forall i :: 0 <= i < |q| - 2 ==> q[i] == q[..|q| - 2][i];
    assert '\n' !in q;
    assert '\n' !in Decimal(done) && '\n' !in Decimal(total);
  }

  /** A reserved name in a line survives whatever is appended to the line. */
  lemma {:induction false} ColonNextExtends(s: string, more: string)
    requires ColonNext(s)
    ensures ColonNext(s + more)
  {
    if s[0] != ':' {
      ColonNextExtends(s[1..], more);
      assert (s + more)[1..] == s[1..] + more;
    }
  }

  lemma HasPrefixIsReserved(line: string, more: string, k: Kind)
    requires HasPrefix(line, k)
    ensures Reserved(line + more)
  {
    var n := |Name(k)|;
    assert line[..n] == Name(k);
    assert forall i :: 0 <= i < n ==> (line + more)[i] == line[..n][i];
    assert (line + more)[n..] == line[n..] + more;
    ColonNextExtends(line[n..], more);
  }

  /** The lines of `a` are the first of `b`, except that the last one may go on. */
  ghost predicate Begins(a: seq<string>, b: seq<string>) {
    && 0 < |a| <= |b| && StartsWith(b[|a| - 1], a[|a| - 1])
    && forall i :: 0 <= i < |a| - 1 ==> a[i] == b[i]
  }

  lemma BeginsLonger(a: seq<string>, b: seq<string>, c: char)
    requires Begins(a, b)
    ensures Begins([[c] + a[0]] + a[1..], [[c] + b[0]] + b[1..])
  {
    if |a| == 1 {
      assert ([c] + b[0])[..1 + |a[0]|] == [c] + b[0][..|a[0]|];
    }
  }

  lemma BeginsLater(a: seq<string>, b: seq<string>)
    requires Begins(a, b)
    ensures Begins([""] + a, [""] + b)
  {}

  /** The lines of the beginning of a text are lines of the text, except that the last one may go on. */
  lemma {:induction false} PrefixLines(s: string, rest: string)
    ensures Begins(Lines(s), Lines(s + rest))
  {
    if s == "" {
      assert s + rest == rest;
    } else {
      var t := s + rest;
      assert t[0] == s[0] && t[1..] == s[1..] + rest;
      PrefixLines(s[1..], rest);
      if s[0] == '\n' {
        BeginsLater(Lines(s[1..]), Lines(t[1..]));
      } else {
        BeginsLonger(Lines(s[1..]), Lines(t[1..]), s[0]);
      }
    }
  }

  /** If no line of the message is reserved, no line of its stripped body carries a trailer name. */
  lemma BodyUnreserved(message: string, l: string, k: Kind)
    requires forall m :: m in Lines(message) ==> !Reserved(m)
    requires l in Lines(StripEnd(message))
    ensures !HasPrefix(l, k)
  {
    var body := StripEnd(message);
    var rest := message[|body|..];
    assert message == body + rest;
    PrefixLines(body, rest);
    var a, b := Lines(body), Lines(message);
    var i :| 0 <= i < |a| && a[i] == l;
    var more := b[i][|l|..];
    assert b[i] in b && b[i] == l + more;
    if HasPrefix(l, k) {
      HasPrefixIsReserved(l, more, k);
    }
  }

  lemma {:induction false} CountNone(lines: seq<string>, p: string -> bool)
    requires forall l :: l in lines ==> !p(l)
    ensures CountIf(lines, p) == 0
  {
    if lines != [] {
      assert lines[0] in lines;
      CountNone(lines[1..], p);
    }
  }

  lemma {:induction false} CollectNone<T>(lines: seq<string>, f: string -> Option<T>)
    requires forall l :: l in lines ==> f(l).None?
    ensures Collect(lines, f) == []
  {
    if lines != [] {
      assert lines[0] in lines;
      CollectNone(lines[1..], f);
    }
  }

  lemma TrailerHasPrefix(line: string)
    ensures ParseTrailer(line).Some? ==> HasPrefix(line, Queue) || HasPrefix(line, Feature)
  {
    if StartsWith(line, Name(Queue)) {
      ValueHasColon(line[|Name(Queue)|..], Queue);
    } else if StartsWith(line, Name(Feature)) {
      ValueHasColon(line[|Name(Feature)|..], Feature);
    }
  }

  lemma ValueHasColon(s: string, k: Kind)
    ensures ParseValue(s, k).Some? ==> ColonNext(s)
  {
    if StartsWith(s, ": ") {
      assert s[0] == s[..2][0];
    }
  }

  lemma {:induction false} CountConcat(a: seq<string>, b: seq<string>, p: string -> bool)
    ensures CountIf(a + b, p) == CountIf(a, p) + CountIf(b, p)
  {
    if a == [] {
      assert a + b == b;
    } else {
      CountConcat(a[1..], b, p);
      assert (a + b)[1..] == a[1..] + b;
    }
  }

  lemma {:induction false} CollectConcat<T>(a: seq<string>, b: seq<string>, f: string -> Option<T>)
    ensures Collect(a + b, f) == Collect(a, f) + Collect(b, f)
  {
    if a == [] {
      assert a + b == b;
    } else {
      CollectConcat(a[1..], b, f);
      assert (a + b)[1..] == a[1..] + b && (a + b)[0] == a[0];
      var x := if f(a[0]).Some? then [f(a[0]).value] else [];
      assert x + (Collect(a[1..], f) + Collect(b, f)) == (x + Collect(a[1..], f)) + Collect(b, f);
    }
  }

  lemma CountFour(a: string, b: string, c: string, d: string, p: string -> bool)
    ensures CountIf([a, b, c, d], p) ==
            (if p(a) then 1 else 0) + (if p(b) then 1 else 0) + (if p(c) then 1 else 0) + if p(d) then 1 else 0
  {
    assert [a, b, c, d][1..] == [b, c, d] && [b, c, d][1..] == [c, d] && [c, d][1..] == [d] && [d][1..] == [];
    assert CountIf([b, c, d], p) == (if p(b) then 1 else 0) + CountIf([c, d], p);
    assert CountIf([c, d], p) == (if p(c) then 1 else 0) + CountIf([d], p);
  }

  lemma CollectMiddle<T>(a: string, b: string, c: string, d: string, f: string -> Option<T>)
    requires f(a).None? && f(b).Some? && f(c).Some? && f(d).None?
    ensures Collect([a, b, c, d], f) == [f(b).value, f(c).value]
  {
    assert [a, b, c, d][1..] == [b, c, d] && [b, c, d][1..] == [c, d] && [c, d][1..] == [d] && [d][1..] == [];
    assert Collect([b, c, d], f) == [f(b).value] + Collect([c, d], f);
    assert Collect([c, d], f) == [f(c).value] + Collect([d], f) && Collect([d], f) == [] + Collect([d][1..], f);
  }

  /** The lines of a written message: the body's, an empty one, the two trailers, and what follows the last line feed. */
  lemma WrittenLines(body: string, q: string, f: string)
    requires '\n' !in q && '\n' !in f
    ensures Lines(body + "\n\n" + q + "\n" + f + "\n") == Lines(body) + ["", q, f, ""]
  {
    OneLine(q);
    OneLine(f);
    var last := f + "\n" + "";
    LinesConcat(f, "");
    var second := q + "\n" + last;
    LinesConcat(q, last);
    var first := "" + "\n" + second;
    LinesConcat("", second);
    LinesConcat(body, first);
    RegroupLines(body, q, f);
    assert Lines(body) + ([""] + ([q] + ([f] + [""]))) == Lines(body) + ["", q, f, ""];
  }

  lemma RegroupLines(body: string, q: string, f: string)
    ensures body + "\n\n" + q + "\n" + f + "\n" == body + "\n" + ("" + "\n" + (q + "\n" + (f + "\n" + "")))
  {}

  lemma EmptyLine()
    ensures ParseTrailer("").None? && !HasPrefix("", Queue) && !HasPrefix("", Feature)
  {}

  /** What the reader finds in a written message is what it finds in the two trailer lines. */
  lemma FoundInWritten(body: seq<string>, q: string, f: string)
    requires forall l, k :: l in body ==> !HasPrefix(l, k)
    requires ParseTrailer(q).Some? && HasPrefix(q, Queue) && !HasPrefix(q, Feature)
    requires ParseTrailer(f).Some? && HasPrefix(f, Feature) && !HasPrefix(f, Queue)
    ensures var lines := body + ["", q, f, ""];
            && CountIf(lines, Named(Queue)) == 1 && CountIf(lines, Named(Feature)) == 1
            && Collect(lines, ParseTrailer) == [ParseTrailer(q).value, ParseTrailer(f).value]
  {
    var tail := ["", q, f, ""];
    EmptyLine();
    forall l | l in body ensures ParseTrailer(l).None? {
      TrailerHasPrefix(l);
    }
    CollectNone(body, ParseTrailer);
    CollectConcat(body, tail, ParseTrailer);
    CollectMiddle("", q, f, "", ParseTrailer);
    CountInWritten(body, q, f, Queue);
    CountInWritten(body, q, f, Feature);
  }

  lemma CountInWritten(body: seq<string>, q: string, f: string, k: Kind)
    requires forall l :: l in body ==> !HasPrefix(l, k)
    requires HasPrefix(q, k) != HasPrefix(f, k)
    ensures CountIf(body + ["", q, f, ""], Named(k)) == 1
  {
    EmptyLine();
    CountNone(body, Named(k));
    CountConcat(body, ["", q, f, ""], Named(k));
    CountFour("", q, f, "", Named(k));
  }

  /** Reading a written message gives back exactly the progress that was written, for every accepted message. */
  lemma ReadWritten(message: string, p: Progress, pct: Format)
    requires Formats(pct) && ValidProgress(p) && MessageWithProgress(message, p, pct).Success?
    ensures ParseMessage(MessageWithProgress(message, p, pct).value, pct) == Success(p)
  {
    var body := StripEnd(message);
    var q := TrailerLine(Queue, p.queueDone, p.queueTotal, pct);
    var f := TrailerLine(Feature, p.featureDone, p.featureTotal, pct);
    assert IsPercent(pct(p.queueDone, p.queueTotal)) && IsPercent(pct(p.featureDone, p.featureTotal));
    ReadTrailer(Queue, p.queueDone, p.queueTotal, pct);
    ReadTrailer(Feature, p.featureDone, p.featureTotal, pct);
    forall l, k | l in Lines(body) ensures !HasPrefix(l, k) {
      BodyUnreserved(message, l, k);
    }
    WrittenLines(body, q, f);
    FoundInWritten(Lines(body), q, f);
    JudgeWritten(p, pct);
  }

  lemma JudgeWritten(p: Progress, pct: Format)
    requires ValidProgress(p)
    ensures Judge(1, 1, [Trailer(Queue, p.queueDone, p.queueTotal, pct(p.queueDone, p.queueTotal)),
                         Trailer(Feature, p.featureDone, p.featureTotal, pct(p.featureDone, p.featureTotal))], pct) == Success(p)
  {}
}
