/**
 The escaper that writes `android/key.properties`, against the loading rules of java.util.Properties. Values are
 sequences of UTF-16 code units; the file is ASCII text.
 */
module JavaProperties {
  import opened Wrappers
  import Ordering

  // ---------------------------------------------------------------- writing

  ghost predicate Unit(u: int) { 0 <= u < 0x1_0000 }

  ghost predicate Units(us: seq<int>) {
    forall i :: 0 <= i < |us| ==> Unit(us[i])
  }

  /** A string of code points without lone surrogates. */
  ghost predicate Text(s: seq<int>) {
    forall i :: 0 <= i < |s| ==> 0 <= s[i] <= 0x10_FFFF && !(0xD800 <= s[i] <= 0xDFFF)
  }

  /** UTF-16 of a string of code points; fails on a lone surrogate. */
  function Utf16(s: seq<int>): (r: Option<seq<int>>)
    requires forall i :: 0 <= i < |s| ==> 0 <= s[i] <= 0x10_FFFF
    ensures r.Some? ==> Units(r.value)
    ensures r.None? <==> exists i :: 0 <= i < |s| && 0xD800 <= s[i] <= 0xDFFF
  {
    if s == [] then Some([])
    else
      var n := |s| - 1;
      var rest := Utf16(s[..n]);
      if rest.None? || 0xD800 <= s[n] <= 0xDFFF then
        None
      else Some(rest.value + Encoded(s[n]))
  }

  /** One code point: itself, or a surrogate pair. */
  function Encoded(c: int): (us: seq<int>)
    requires 0 <= c <= 0x10_FFFF
    ensures Units(us)
  {
    if c < 0x1_0000 then [c] else [0xD800 + (c - 0x1_0000) / 0x400, 0xDC00 + (c - 0x1_0000) % 0x400]
  }

  /** UTF-16 as a string of code points: a high surrogate before a low one stands for one code point. */
  function Decode(us: seq<int>): seq<int> {
    if us == [] then []
    else
      var n := |us| - 1;
      if n > 0 && 0xD800 <= us[n - 1] <= 0xDBFF && 0xDC00 <= us[n] <= 0xDFFF
      then Decode(us[..n - 1]) + [0x1_0000 + (us[n - 1] - 0xD800) * 0x400 + (us[n] - 0xDC00)]
      else Decode(us[..n]) + [us[n]]
  }

  lemma DecodePair(us: seq<int>, high: int, low: int)
    requires 0xD800 <= high <= 0xDBFF && 0xDC00 <= low <= 0xDFFF
    ensures Decode(us + [high, low]) == Decode(us) + [0x1_0000 + (high - 0xD800) * 0x400 + (low - 0xDC00)]
  {
    assert (us + [high, low])[..|us|] == us;
  }

  lemma DecodeUnit(us: seq<int>, u: int)
    requires !(0xD800 <= u <= 0xDFFF)
    ensures Decode(us + [u]) == Decode(us) + [u]
  {
    assert (us + [u])[..|us|] == us;
  }

  lemma Halved(v: int)
    requires 0 <= v < 0x10_0000
    ensures 0 <= v / 0x400 < 0x400 && v / 0x400 * 0x400 + v % 0x400 == v
  {}

  lemma DecodeHalves(us: seq<int>, h: int, l: int)
    requires 0 <= h < 0x400 && 0 <= l < 0x400
    ensures Decode(us + [0xD800 + h, 0xDC00 + l]) == Decode(us) + [0x1_0000 + h * 0x400 + l]
  {
    DecodePair(us, 0xD800 + h, 0xDC00 + l);
  }

  lemma DecodeEncoded(us: seq<int>, c: int)
    requires 0 <= c <= 0x10_FFFF && !(0xD800 <= c <= 0xDFFF)
    ensures Decode(us + Encoded(c)) == Decode(us) + [c]
  {
    if c < 0x1_0000 {
      DecodeUnit(us, c);
    } else {
      DecodeHalves(us, (c - 0x1_0000) / 0x400, (c - 0x1_0000) % 0x400);
      Halved(c - 0x1_0000);
    }
  }

  lemma EncodedLast(s: seq<int>, before: seq<int>, c: int)
    requires Text(s) && s == before + [c]
    ensures 0 <= c <= 0x10_FFFF && !(0xD800 <= c <= 0xDFFF)
    ensures Text(before) && Utf16(before).Some? && Utf16(s) == Some(Utf16(before).value + Encoded(c))
  {
    assert s[..|s| - 1] == before && s[|s| - 1] == c;
  }

  /** Decoding gives back every string that can be encoded. */
  lemma {:induction false} DecodeUtf16(s: seq<int>)
    requires Text(s)
    ensures Utf16(s).Some? && Decode(Utf16(s).value) == s
  {
    if s != [] {
      var before, c := s[..|s| - 1], s[|s| - 1];
      EncodedLast(s, before, c);
      DecodeUtf16(before);
      DecodeEncoded(Utf16(before).value, c);
    }
  }

  function HexDigit(d: int): (c: char)
    requires 0 <= d < 16
  {
    "0123456789abcdef"[d]
  }

  predicate Special(c: char) { c in "\\:=#! " }

  /** One code unit as `properties_value` writes it. */
  function EscapeUnit(u: int): string
    requires Unit(u)
  {
    if u < 0x80 && Special(u as char) then ['\\', u as char]
    else if u < 0x20 || u > 0x7E then
      HexEscape(u / 4096, u / 256 % 16, u / 16 % 16, u % 16)
    else [u as char]
  }

  function HexEscape(a: int, b: int, c: int, d: int): (e: string)
    requires 0 <= a < 16 && 0 <= b < 16 && 0 <= c < 16 && 0 <= d < 16
    ensures |e| == 6
  {
    ['\\', 'u', HexDigit(a), HexDigit(b), HexDigit(c), HexDigit(d)]
  }

  function Escape(us: seq<int>): string
    requires Units(us)
  {
    if us == [] then "" else EscapeUnit(us[0]) + Escape(us[1..])
  }

  /** `properties_value`: the loop over the units of the encoded string. */
  method PropertiesValue(s: seq<int>) returns (r: Option<string>)
    requires forall i :: 0 <= i < |s| ==> 0 <= s[i] <= 0x10_FFFF
    ensures r == if Utf16(s).None? then None else Some(Escape(Utf16(s).value))
  {
    var units := Utf16(s);
    if units.None? {
      return None;
    }
    var us := units.value;
    var out := "";
    for i := 0 to |us|
      invariant Units(us[..i]) && out == Escape(us[..i])
    {
      EscapeNext(us, i);
      out := out + EscapeUnit(us[i]);
    }
    assert us[..|us|] == us;
    return Some(out);
  }

  lemma {:induction false} EscapeSnoc(us: seq<int>, u: int)
    requires Units(us) && Unit(u)
    ensures Units(us + [u]) && Escape(us + [u]) == Escape(us) + EscapeUnit(u)
  {
    if us == [] {
      assert us + [u] == [u];
      assert Escape([u]) == EscapeUnit(u) + Escape([]);
    } else {
      EscapeSnoc(us[1..], u);
      assert (us + [u])[0] == us[0] && (us + [u])[1..] == us[1..] + [u];
    }
  }

  lemma EscapeNext(us: seq<int>, i: nat)
    requires Units(us) && i < |us|
    ensures Units(us[..i]) && Units(us[..i + 1]) && Escape(us[..i + 1]) == Escape(us[..i]) + EscapeUnit(us[i])
  {
    EscapeSnoc(us[..i], us[i]);
    assert us[..i + 1] == us[..i] + [us[i]];
  }

  datatype Entry = Entry(key: string, value: seq<int>)

  /** The text of one entry, without its line feed. */
  function Line(e: Entry): string
    requires Units(e.value)
  {
    e.key + "=" + Escape(e.value)
  }

  /** `key=value` and a line feed for each entry. */
  function Print(entries: seq<Entry>): string
    requires forall i :: 0 <= i < |entries| ==> Units(entries[i].value)
  {
    if entries == [] then ""
    else Line(entries[0]) + "\n" + Print(entries[1..])
  }

  // ---------------------------------------------------------------- loading

  predicate White(c: char) { c == ' ' || c == '\t' || c == '\U{C}' }

  predicate LineEnd(c: char) { c == '\n' || c == '\r' }

  /** The first line end, or the length of the text. */
  function LineLength(t: string): (n: nat)
    ensures n <= |t| && (n < |t| ==> LineEnd(t[n])) && forall i :: 0 <= i < n ==> !LineEnd(t[i])
  {
    if t == "" || LineEnd(t[0]) then 0 else 1 + LineLength(t[1..])
  }

  /** Natural lines; `\r\n` is one terminator. */
  function NaturalLines(t: string): seq<string>
    decreases |t|
  {
    if t == "" then []
    else
      var n := LineLength(t);
      if n == |t| then [t]
      else
        var skip := if n + 1 < |t| && t[n] == '\r' && t[n + 1] == '\n' then 2 else 1;
        [t[..n]] + NaturalLines(t[n + skip..])
  }

  function Strip(l: string): string {
    if l != "" && White(l[0]) then Strip(l[1..]) else l
  }

  /** An odd number of backslashes at the end: the line goes on. */
  predicate Continued(l: string) {
    l != "" && l[|l| - 1] == '\\' && !Continued(l[..|l| - 1])
  }

  /** Logical lines: blank and comment lines are skipped, continued lines joined without the next line's indent. */
  function LogicalLines(lines: seq<string>): seq<string>
    decreases |lines|, 0
  {
    if lines == [] then []
    else
      var l := Strip(lines[0]);
      if l == "" || l[0] == '#' || l[0] == '!' then LogicalLines(lines[1..])
      else Join(l, lines[1..])
  }

  function Join(l: string, rest: seq<string>): seq<string>
    decreases |rest|, 1
  {
    if !Continued(l) then [l] + LogicalLines(rest)
    else if rest == [] then [l[..|l| - 1]]
    else Join(l[..|l| - 1] + Strip(rest[0]), rest[1..])
  }

  /** The length of the key: up to the first unescaped `=`, `:` or white space. */
  function KeyLength(l: string): (n: nat)
    ensures n <= |l|
  {
    if l == "" || l[0] == '=' || l[0] == ':' || White(l[0]) then 0
    else if l[0] == '\\' && |l| >= 2 then 2 + KeyLength(l[2..])
    else 1 + KeyLength(l[1..])
  }

  /** What follows the key: white space, at most one separator, and white space again. */
  function AfterSeparator(l: string): string {
    var r := Strip(l);
    if r != "" && (r[0] == '=' || r[0] == ':') then Strip(r[1..]) else r
  }

  function HexValue(c: char): Option<int> {
    if '0' <= c <= '9' then Some(c as int - '0' as int)
    else if 'a' <= c <= 'f' then Some(c as int - 'a' as int + 10)
    else if 'A' <= c <= 'F' then Some(c as int - 'A' as int + 10)
    else None
  }

  /** Undoes the escapes; a malformed `\u` is an error. */
  function Unescape(t: string): Option<seq<int>>
    decreases |t|
  {
    if t == "" then Some([])
    else if t[0] != '\\' then
      var rest := Unescape(t[1..]);
      if rest.None? then None else Some([t[0] as int] + rest.value)
    else if |t| == 1 then Some([])
    else if t[1] == 'u' then
      if |t| < 6 then None
      else
        var a, b, c, d := HexValue(t[2]), HexValue(t[3]), HexValue(t[4]), HexValue(t[5]);
        var rest := Unescape(t[6..]);
        if a.None? || b.None? || c.None? || d.None? || rest.None? then None
        else Some([a.value * 4096 + b.value * 256 + c.value * 16 + d.value] + rest.value)
    else
      var u := match t[1]
        case 't' => 9
        case 'n' => 10
        case 'f' => 12
        case 'r' => 13
        case c => c as int;
      var rest := Unescape(t[2..]);
      if rest.None? then None else Some([u] + rest.value)
  }

  datatype Pair = Pair(key: seq<int>, value: seq<int>)

  /** One logical line as a key and a value. */
  function LoadLine(l: string): Option<Pair> {
    var n := KeyLength(l);
    var key, value := Unescape(l[..n]), Unescape(AfterSeparator(l[n..]));
    if key.None? || value.None? then None else Some(Pair(key.value, value.value))
  }

  function LoadLines(lines: seq<string>): Option<seq<Pair>> {
    if lines == [] then Some([])
    else
      var first, rest := LoadLine(lines[0]), LoadLines(lines[1..]);
      if first.None? || rest.None? then None else Some([first.value] + rest.value)
  }

  /** `Properties.load` on the text of a file. */
  function Load(t: string): Option<seq<Pair>> {
    LoadLines(LogicalLines(NaturalLines(t)))
  }

  // ---------------------------------------------------------------- the round trip

  /** A key of letters only, as the four keys of the file. */
  ghost predicate PlainKey(k: string) {
    k != "" && forall i :: 0 <= i < |k| ==> 'a' <= k[i] <= 'z' || 'A' <= k[i] <= 'Z'
  }

  lemma HexDigitValue(d: int)
    requires 0 <= d < 16
    ensures HexValue(HexDigit(d)) == Some(d)
  {}

  lemma UnescapeSpecial(c: char, rest: string)
    requires Special(c) && Unescape(rest).Some?
    ensures Unescape(['\\', c] + rest) == Some([c as int] + Unescape(rest).value)
  {
    var t := ['\\', c] + rest;
    assert t[2..] == rest;
  }

  /** Six characters that begin with a backslash and a `u` are one unit. */
  lemma UnescapeFour(t: string, a: int, b: int, c: int, d: int)
    requires |t| >= 6 && t[0] == '\\' && t[1] == 'u' && Unescape(t[6..]).Some?
    requires HexValue(t[2]) == Some(a) && HexValue(t[3]) == Some(b) && HexValue(t[4]) == Some(c) && HexValue(t[5]) == Some(d)
    ensures Unescape(t) == Some([a * 4096 + b * 256 + c * 16 + d] + Unescape(t[6..]).value)
  {}

  lemma UnescapeHex(a: int, b: int, c: int, d: int, rest: string)
    requires 0 <= a < 16 && 0 <= b < 16 && 0 <= c < 16 && 0 <= d < 16 && Unescape(rest).Some?
    ensures Unescape(HexEscape(a, b, c, d) + rest) ==
            Some([a * 4096 + b * 256 + c * 16 + d] + Unescape(rest).value)
  {
    var t := HexEscape(a, b, c, d) + rest;
    assert t[6..] == rest;
    HexDigitValue(a);
    HexDigitValue(b);
    HexDigitValue(c);
    HexDigitValue(d);
    UnescapeFour(t, a, b, c, d);
  }

  lemma Nibbles(u: int)
    requires Unit(u)
    ensures u / 4096 * 4096 + u / 256 % 16 * 256 + u / 16 % 16 * 16 + u % 16 == u
  {
    var a := u / 16;
    var b := a / 16;
    assert u / 256 == b && u / 4096 == b / 16;
    assert u == a * 16 + u % 16 && a == b * 16 + a % 16 && b == b / 16 * 16 + b % 16;
  }

  lemma UnescapeOther(c: char, rest: string)
    requires c != '\\' && Unescape(rest).Some?
    ensures Unescape([c] + rest) == Some([c as int] + Unescape(rest).value)
  {
    assert ([c] + rest)[1..] == rest;
  }

  lemma UnescapeUnit(u: int, rest: string)
    requires Unit(u) && Unescape(rest).Some?
    ensures Unescape(EscapeUnit(u) + rest) == Some([u] + Unescape(rest).value)
  {
    if u < 0x80 && Special(u as char) {
      UnescapeSpecial(u as char, rest);
    } else if u < 0x20 || u > 0x7E {
      UnescapeHex(u / 4096, u / 256 % 16, u / 16 % 16, u % 16, rest);
      Nibbles(u);
    } else {
      UnescapeOther(u as char, rest);
    }
  }

  /** Unescaping what was escaped gives back the units. */
  lemma {:induction false} UnescapeEscape(us: seq<int>)
    requires Units(us)
    ensures Unescape(Escape(us)) == Some(us)
  {
    if us != [] {
      UnescapeEscape(us[1..]);
      UnescapeUnit(us[0], Escape(us[1..]));
      assert us == [us[0]] + us[1..];
    }
  }

  lemma EscapeUnitShape(u: int)
    requires Unit(u)
    ensures var e := EscapeUnit(u);
            && e != "" && !White(e[0]) && e[0] as int < 0x80
            && (forall i :: 0 <= i < |e| ==> !LineEnd(e[i]) && e[i] as int < 0x80)
  {
    if !(u < 0x80 && Special(u as char)) && (u < 0x20 || u > 0x7E) {
      forall d | 0 <= d < 16 ensures !LineEnd(HexDigit(d)) && HexDigit(d) as int < 0x80 {}
    }
  }

  /** Printed values are ASCII, stay on their line, and do not begin with white space. */
  lemma {:induction false} EscapeShape(us: seq<int>)
    requires Units(us)
    ensures var e := Escape(us);
            && (e != "" ==> !White(e[0]))
            && (forall i :: 0 <= i < |e| ==> !LineEnd(e[i]) && e[i] as int < 0x80)
  {
    if us != [] {
      EscapeUnitShape(us[0]);
      EscapeShape(us[1..]);
    }
  }

  /** Whether a text ends in an odd run of backslashes depends only on its last part, if that is not all backslashes. */
  lemma {:induction false} ContinuedAfter(a: string, b: string)
    requires !Continued(a)
    ensures Continued(a + b) == Continued(b)
  {
    if b == "" {
      assert a + b == a;
    } else {
      var n := |b| - 1;
      assert (a + b)[..|a| + n] == a + b[..n];
      ContinuedAfter(a, b[..n]);
    }
  }

  /** A printed value never ends in an unpaired backslash. */
  lemma {:induction false} EscapeNotContinued(us: seq<int>)
    requires Units(us)
    ensures !Continued(Escape(us))
  {
    if us != [] {
      EscapeNotContinued(us[1..]);
      UnitNotContinued(us[0]);
      ContinuedAfter(EscapeUnit(us[0]), Escape(us[1..]));
    }
  }

  lemma UnitNotContinued(u: int)
    requires Unit(u)
    ensures !Continued(EscapeUnit(u))
  {
    var e := EscapeUnit(u);
    if |e| == 2 {
      assert e[..1] == ['\\'] && e[..1][..0] == "";
      assert Continued(e[..1]);
    } else if |e| == 6 {
      assert e[5] != '\\' by {
        forall d | 0 <= d < 16 ensures HexDigit(d) != '\\' {}
      }
    }
  }

  lemma {:induction false} KeyLengthPlain(k: string, rest: string)
    requires forall i :: 0 <= i < |k| ==> 'a' <= k[i] <= 'z' || 'A' <= k[i] <= 'Z'
    ensures KeyLength(k + "=" + rest) == |k|
  {
    if k == "" {
      assert (k + "=" + rest)[0] == '=';
    } else {
      KeyLengthPlain(k[1..], rest);
      assert (k + "=" + rest)[1..] == k[1..] + "=" + rest;
    }
  }

  lemma {:induction false} UnescapePlain(k: string)
    requires forall i :: 0 <= i < |k| ==> k[i] != '\\'
    ensures Unescape(k) == Some(Ordering.Codes(k))
  {
    if k != "" {
      UnescapePlain(k[1..]);
      assert Ordering.Codes(k) == [k[0] as int] + Ordering.Codes(k[1..]);
    }
  }

  lemma SeparatorThenValue(v: string)
    requires v != "" ==> !White(v[0])
    ensures AfterSeparator("=" + v) == v
  {
    assert ("=" + v)[0] == '=' && ("=" + v)[1..] == v;
  }

  /** A printed line loads as its entry. */
  lemma LoadPrintedLine(e: Entry)
    requires PlainKey(e.key) && Units(e.value)
    ensures LoadLine(Line(e)) == Some(Pair(Ordering.Codes(e.key), e.value))
  {
    var v := Escape(e.value);
    KeyLengthPlain(e.key, v);
    UnescapePlain(e.key);
    EscapeShape(e.value);
    UnescapeEscape(e.value);
    SeparatorThenValue(v);
    LoadParts(e.key, v);
  }

  lemma LoadParts(k: string, v: string)
    requires KeyLength(k + "=" + v) == |k| && AfterSeparator("=" + v) == v && Unescape(k).Some? && Unescape(v).Some?
    ensures LoadLine(k + "=" + v) == Some(Pair(Unescape(k).value, Unescape(v).value))
  {
    var l := k + "=" + v;
    assert l[..|k|] == k && l[|k|..] == "=" + v;
  }

  /** A printed line is one natural line, and one logical line by itself. */
  lemma PrintedLineStandsAlone(e: Entry, rest: string)
    requires PlainKey(e.key) && Units(e.value)
    ensures NaturalLines(Line(e) + "\n" + rest) == [Line(e)] + NaturalLines(rest)
    ensures forall lines :: LogicalLines([Line(e)] + lines) == [Line(e)] + LogicalLines(lines)
  {
    EscapeShape(e.value);
    NaturalLine(Line(e), rest);
    PrintedNotContinued(e);
    forall lines ensures LogicalLines([Line(e)] + lines) == [Line(e)] + LogicalLines(lines) {
      LogicalLine(Line(e), lines);
    }
  }

  /** Text without a line end, up to a line feed, is one natural line. */
  lemma NaturalLine(l: string, rest: string)
    requires forall i :: 0 <= i < |l| ==> !LineEnd(l[i])
    ensures NaturalLines(l + "\n" + rest) == [l] + NaturalLines(rest)
  {
    var t := l + "\n" + rest;
    assert forall i :: 0 <= i < |l| ==> !LineEnd(t[i]);
    assert t[|l|] == '\n';
    var n := LineLength(t);
    assert n == |l|;
    assert t[..n] == l && t[n + 1..] == rest;
  }

  lemma PrintedNotContinued(e: Entry)
    requires PlainKey(e.key) && Units(e.value)
    ensures !Continued(Line(e))
  {
    EscapeNotContinued(e.value);
    NotContinuedPrefix(e.key + "=");
    ContinuedAfter(e.key + "=", Escape(e.value));
  }

  /** A line that begins with a letter and does not go on is a logical line of its own. */
  lemma LogicalLine(l: string, lines: seq<string>)
    requires l != "" && ('a' <= l[0] <= 'z' || 'A' <= l[0] <= 'Z') && !Continued(l)
    ensures LogicalLines([l] + lines) == [l] + LogicalLines(lines)
  {
    assert ([l] + lines)[1..] == lines;
    assert Strip(l) == l;
  }

  lemma NotContinuedPrefix(a: string)
    requires a != "" && a[|a| - 1] != '\\'
    ensures !Continued(a)
  {}

  ghost predicate Printable(entries: seq<Entry>) {
    forall i :: 0 <= i < |entries| ==> PlainKey(entries[i].key) && Units(entries[i].value)
  }

  function Pairs(entries: seq<Entry>): (r: seq<Pair>)
    ensures |r| == |entries|
  {
    seq(|entries|, i requires 0 <= i < |entries| => Pair(Ordering.Codes(entries[i].key), entries[i].value))
  }

  lemma LoadOneMore(l: string, lines: seq<string>)
    requires LoadLine(l).Some? && LoadLines(lines).Some?
    ensures LoadLines([l] + lines) == Some([LoadLine(l).value] + LoadLines(lines).value)
  {
    assert ([l] + lines)[1..] == lines;
  }

  /** Loading a printed file gives back exactly the entries, for all values and any number of them. */
  lemma {:induction false} LoadPrint(entries: seq<Entry>)
    requires Printable(entries)
    ensures Load(Print(entries)) == Some(Pairs(entries))
  {
    if entries != [] {
      LoadPrint(entries[1..]);
      LoadPrintOne(entries[0], Print(entries[1..]));
      assert Pairs(entries) == [Pair(Ordering.Codes(entries[0].key), entries[0].value)] + Pairs(entries[1..]);
    }
  }

  lemma LoadPrintOne(e: Entry, rest: string)
    requires PlainKey(e.key) && Units(e.value) && Load(rest).Some?
    ensures Load(Line(e) + "\n" + rest) == Some([Pair(Ordering.Codes(e.key), e.value)] + Load(rest).value)
  {
    PrintedLineStandsAlone(e, rest);
    LoadPrintedLine(e);
    LoadOneMore(Line(e), LogicalLines(NaturalLines(rest)));
  }

  function Property(key: string, s: seq<int>): (e: Entry)
    requires Text(s)
    ensures e.key == key && Units(e.value) && Utf16(s) == Some(e.value)
  {
    Entry(key, Utf16(s).value)
  }

  /** The file of `prepare_ci`. */
  function KeyProperties(file: seq<int>, storePassword: seq<int>, alias: seq<int>, keyPassword: seq<int>): (r: seq<Entry>)
    requires Text(file) && Text(storePassword) && Text(alias) && Text(keyPassword)
    ensures |r| == 4 && forall i :: 0 <= i < 4 ==> Units(r[i].value)
  {
    [Property("storeFile", file), Property("storePassword", storePassword), Property("keyAlias", alias), Property("keyPassword", keyPassword)]
  }

  lemma KeysArePlain()
    ensures PlainKey("storeFile") && PlainKey("storePassword") && PlainKey("keyAlias") && PlainKey("keyPassword")
  {}

  /** What is loaded: this key, and units that decode to this string. */
  ghost predicate Holds(p: Pair, key: string, s: seq<int>)
    requires Text(s)
  {
    p.key == Ordering.Codes(key) && Utf16(s) == Some(p.value) && Decode(p.value) == s
  }

  lemma PropertyHolds(entries: seq<Entry>, i: nat, key: string, s: seq<int>)
    requires Text(s) && i < |entries| && entries[i] == Property(key, s)
    ensures Holds(Pairs(entries)[i], key, s)
  {
    DecodeUtf16(s);
  }

  /** For every four strings, loading the printed file gives the four keys, in this order, each with its own string. */
  lemma KeyPropertiesRoundTrip(file: seq<int>, storePassword: seq<int>, alias: seq<int>, keyPassword: seq<int>)
    requires Text(file) && Text(storePassword) && Text(alias) && Text(keyPassword)
    ensures var loaded := Load(Print(KeyProperties(file, storePassword, alias, keyPassword)));
            && loaded.Some? && |loaded.value| == 4
            && Holds(loaded.value[0], "storeFile", file) && Holds(loaded.value[1], "storePassword", storePassword)
            && Holds(loaded.value[2], "keyAlias", alias) && Holds(loaded.value[3], "keyPassword", keyPassword)
  {
    var entries := KeyProperties(file, storePassword, alias, keyPassword);
    KeysArePlain();
    LoadPrint(entries);
    PropertyHolds(entries, 0, "storeFile", file);
    PropertyHolds(entries, 1, "storePassword", storePassword);
    PropertyHolds(entries, 2, "keyAlias", alias);
    PropertyHolds(entries, 3, "keyPassword", keyPassword);
  }
}
