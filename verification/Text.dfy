/** The parts of Python's text handling that the scripts rely on. */
module Text {
  import opened Prelude

  /** What `str.isspace` and the pattern `\s` accept. */
  predicate IsSpace(c: char) {
    || '\U{0009}' <= c <= '\U{000D}' || '\U{001C}' <= c <= '\U{0020}' || c == '\U{0085}' || c == '\U{00A0}'
    || c == '\U{1680}' || '\U{2000}' <= c <= '\U{200A}' || c == '\U{2028}' || c == '\U{2029}'
    || c == '\U{202F}' || c == '\U{205F}' || c == '\U{3000}'
  }

  /** What `str.splitlines` treats as a line boundary. */
  predicate IsBreak(c: char) {
    || '\U{000A}' <= c <= '\U{000D}' || '\U{001C}' <= c <= '\U{001E}' || c == '\U{0085}'
    || c == '\U{2028}' || c == '\U{2029}'
  }

  function SpaceRun(s: string, i: nat): (e: nat)
    requires i <= |s|
    ensures i <= e <= |s|
    ensures forall k :: i <= k < e ==> IsSpace(s[k])
    ensures e < |s| ==> !IsSpace(s[e])
    decreases |s| - i
  {
    if i < |s| && IsSpace(s[i]) then SpaceRun(s, i + 1) else i
  }

  function StripRight(s: string): (r: string)
    ensures r <= s && (r != "" ==> !IsSpace(r[|r| - 1]))
    ensures s != "" && !IsSpace(s[|s| - 1]) ==> r == s
  {
    if s != "" && IsSpace(s[|s| - 1]) then StripRight(s[..|s| - 1]) else s
  }

  predicate Trimmed(s: string) {
    s == "" || (!IsSpace(s[0]) && !IsSpace(s[|s| - 1]))
  }

  /** `str.strip`: the longest middle part with no space at either end. */
  function Strip(s: string): (r: string)
    ensures |r| <= |s| && Trimmed(r)
    ensures Trimmed(s) ==> r == s
  {
    StripRight(s[SpaceRun(s, 0)..])
  }

  predicate AllSpace(s: string) {
    forall k :: 0 <= k < |s| ==> IsSpace(s[k])
  }

  /** A space run ends where other text begins. */
  lemma SpaceRunOver(s: string, i: nat, gap: string, rest: string)
    requires i <= |s| && s[i..] == gap + rest && AllSpace(gap) && rest != "" && !IsSpace(rest[0])
    ensures SpaceRun(s, i) == i + |gap| < |s| && s[i + |gap|] == rest[0]
  {
    hide SpaceRun, IsSpace;
    var end, e := i + |gap|, SpaceRun(s, i);
    assert |s[i..]| == |gap| + |rest|;
    assert s[end] == s[i..][|gap|] == rest[0];
    forall k | i <= k < end ensures IsSpace(s[k]) { assert s[k] == s[i..][k - i] == gap[k - i]; }
    assert e >= end;
  }

  lemma {:induction false} StripRightPadded(a: string, r: string)
    requires Trimmed(a) && AllSpace(r)
    ensures StripRight(a + r) == a
    decreases |r|
  {
    if r == "" {
      assert a + r == a;
    } else {
      var s := a + r;
      assert s[|s| - 1] == r[|r| - 1] && s[..|s| - 1] == a + r[..|r| - 1];
      StripRightPadded(a, r[..|r| - 1]);
    }
  }

  /** Stripping takes off exactly the white space around a trimmed text. */
  lemma StripPadded(l: string, a: string, r: string)
    requires AllSpace(l) && Trimmed(a) && AllSpace(r)
    ensures Strip(l + a + r) == a
  {
    hide SpaceRun, StripRight;
    var s := l + a + r;
    assert s[0..] == s && s == l + (a + r);
    if a == "" {
      assert AllSpace(s);
      var e := SpaceRun(s, 0);
      assert e == |s| && s[e..] == "" + "";
      StripRightPadded("", "");
    } else {
      SpaceRunOver(s, 0, l, a + r);
      assert s[|l|..] == a + r;
      StripRightPadded(a, r);
    }
  }

  lemma {:induction false} StripRightParts(s: string) returns (r: string)
    ensures s == StripRight(s) + r && AllSpace(r)
  {
    if s != "" && IsSpace(s[|s| - 1]) {
      var q := StripRightParts(s[..|s| - 1]);
      r := q + [s[|s| - 1]];
      assert s == s[..|s| - 1] + [s[|s| - 1]];
    } else {
      r := "";
    }
  }

  /** Every text is its stripped part with white space around it. */
  lemma StripParts(s: string) returns (l: string, r: string)
    ensures s == l + Strip(s) + r && AllSpace(l) && AllSpace(r)
  {
    hide SpaceRun, StripRight, IsSpace;
    var e := SpaceRun(s, 0);
    l := s[..e];
    r := StripRightParts(s[e..]);
    assert s == l + s[e..] && s[e..] == Strip(s) + r;
    assert l + (Strip(s) + r) == l + Strip(s) + r;
  }

  // ----- lines -----

  function LineLength(s: string): (n: nat)
    ensures n <= |s| && (n < |s| ==> IsBreak(s[n]))
    ensures forall k :: 0 <= k < n ==> !IsBreak(s[k])
  {
    if s == "" || IsBreak(s[0]) then 0 else 1 + LineLength(s[1..])
  }

  function SplitLines(s: string): (lines: seq<string>)
    ensures forall k :: 0 <= k < |lines| ==> OneLine(lines[k])
  {
    if s == "" then []
    else
      var n := LineLength(s);
      if n == |s| then [s]
      else if s[n] == '\r' && n + 1 < |s| && s[n + 1] == '\n' then [s[..n]] + SplitLines(s[n + 2..])
      else [s[..n]] + SplitLines(s[n + 1..])
  }

  predicate OneLine(s: string) {
    forall k :: 0 <= k < |s| ==> !IsBreak(s[k])
  }

  lemma {:induction false} LineLengthOf(line: string, rest: string)
    requires OneLine(line) && (rest != "" ==> IsBreak(rest[0]))
    ensures LineLength(line + rest) == |line|
  {
    var s := line + rest;
    if line == "" {
      assert s == rest;
    } else {
      assert s[0] == line[0];
      assert s[1..] == line[1..] + rest;
      LineLengthOf(line[1..], rest);
    }
  }

  /** A line ending: a carriage return and line feed together, or any other one boundary. */
  predicate LineEnd(end: string, rest: string) {
    || end == "\r\n"
    || (|end| == 1 && IsBreak(end[0]) && !(end == "\r" && rest != "" && rest[0] == '\n'))
  }

  /** A line and its ending are split off as exactly that line, and a last line needs no ending. */
  lemma SplitExact(line: string, end: string, rest: string)
    requires OneLine(line) && LineEnd(end, rest)
    ensures SplitLines(line + end + rest) == [line] + SplitLines(rest)
    ensures SplitLines(line) == if line == "" then [] else [line]
  {
    hide IsBreak;
    var s := line + end + rest;
    assert s == line + (end + rest) && (end + rest)[0] == end[0];
    assert IsBreak(end[0]) by { Returns(); }
    LineLengthOf(line, end + rest);
    assert line + "" == line;
    LineLengthOf(line, "");
    var n := |line|;
    assert s[..n] == line && s[n] == end[0] && s[n + |end|..] == rest;
    if |end| == 2 { assert s[n + 1] == '\n'; }
    if |end| == 1 && rest != "" { assert s[n + 1] == rest[0]; }
  }

  lemma Returns()
    ensures IsBreak('\r') && IsBreak('\n')
  {
  }

  lemma SplitFirstLine(line: string, rest: string)
    requires OneLine(line)
    ensures SplitLines(line + "\n" + rest) == [line] + SplitLines(rest)
  {
    Returns();
    hide IsBreak;
    SplitExact(line, "\n", rest);
  }

  // ----- decimal numerals -----

  predicate IsDigit(c: char) {
    '0' <= c <= '9'
  }

  predicate AllDigits(s: string) {
    forall k :: 0 <= k < |s| ==> IsDigit(s[k])
  }

  function Numeral(n: nat): (s: string)
    ensures s != "" && AllDigits(s)
  {
    var d := ['0' + (n % 10) as char];
    if n < 10 then d else Numeral(n / 10) + d
  }

  function Value(s: string): (n: nat)
    requires AllDigits(s)
  {
    if s == "" then 0 else 10 * Value(s[..|s| - 1]) + (s[|s| - 1] - '0') as nat
  }

  /** Reading back a printed number gives the number. */
  lemma {:induction false} NumeralRoundTrip(n: nat)
    ensures Value(Numeral(n)) == n
  {
    var s := Numeral(n);
    if n < 10 {
      assert s[..|s| - 1] == "";
    } else {
      assert s[..|s| - 1] == Numeral(n / 10);
      NumeralRoundTrip(n / 10);
    }
  }

  /** `unsigned`: a nonempty run of decimal digits. */
  function Unsigned(s: string): Option<nat> {
    if s != "" && AllDigits(s) then Some(Value(s)) else None
  }

  function Zeros(k: nat): string {
    seq(k, i => '0')
  }

  lemma DigitChar(c: char)
    requires IsDigit(c)
    ensures '0' + ((c - '0') as nat % 10) as char == c
  {
  }

  /** A digit more is a digit more of the numeral, unless there were only zeros. */
  lemma NumeralStep(n: nat, c: char)
    requires IsDigit(c)
    ensures var v := 10 * n + (c - '0') as nat;
      if n == 0 then Numeral(v) == [c] else Numeral(v) == Numeral(n) + [c]
  {
    var v := 10 * n + (c - '0') as nat;
    DigitChar(c);
    assert v % 10 == (c - '0') as nat && v / 10 == n;
  }

  lemma {:induction false} ReadsNumeral(s: string)
    requires s != "" && AllDigits(s)
    ensures exists k: nat :: s == Zeros(k) + Numeral(Value(s))
    decreases |s|
  {
    hide Numeral;
    var init, c := s[..|s| - 1], s[|s| - 1];
    NumeralStep(Value(init), c);
    assert s == init + [c];
    if init == "" {
      assert s == Zeros(0) + Numeral(Value(s));
    } else {
      ReadsNumeral(init);
      var k: nat :| init == Zeros(k) + Numeral(Value(init));
      if Value(init) == 0 {
        NumeralStep(0, '0');
        assert Zeros(k + 1) == Zeros(k) + "0";
        assert s == Zeros(k + 1) + Numeral(Value(s));
      } else {
        assert s == Zeros(k) + Numeral(Value(s));
      }
    }
  }

  lemma {:induction false} LeadingZeros(k: nat, s: string)
    requires AllDigits(s)
    ensures AllDigits(Zeros(k) + s) && Value(Zeros(k) + s) == Value(s)
    decreases |s|
  {
    var t := Zeros(k) + s;
    if s != "" {
      assert t[..|t| - 1] == Zeros(k) + s[..|s| - 1] && t[|t| - 1] == s[|s| - 1];
      LeadingZeros(k, s[..|s| - 1]);
    } else {
      assert t == Zeros(k);
      AllZeros(k);
    }
  }

  lemma {:induction false} AllZeros(k: nat)
    ensures AllDigits(Zeros(k)) && Value(Zeros(k)) == 0
  {
    if k > 0 {
      AllZeros(k - 1);
      assert Zeros(k)[..k - 1] == Zeros(k - 1);
    }
  }

  /** A text reads as a number exactly when it is the number's numeral after any leading zeros. */
  lemma UnsignedExact(s: string, n: nat)
    ensures Unsigned(s) == Some(n) <==> exists k: nat :: s == Zeros(k) + Numeral(n)
  {
    if Unsigned(s) == Some(n) { ReadsNumeral(s); }
    if k: nat :| s == Zeros(k) + Numeral(n) {
      LeadingZeros(k, Numeral(n));
      NumeralRoundTrip(n);
    }
  }

  // ----- separators -----

  function Join(parts: seq<string>, sep: string): string {
    if parts == [] then ""
    else if |parts| == 1 then parts[0]
    else parts[0] + sep + Join(parts[1..], sep)
  }

  function UntilChar(s: string, sep: char): (n: nat)
    ensures n <= |s| && (n < |s| ==> s[n] == sep) && sep !in s[..n]
  {
    if s == "" || s[0] == sep then 0 else 1 + UntilChar(s[1..], sep)
  }

  /** `str.split` on one character: never empty, and no part contains the separator. */
  function SplitOn(s: string, sep: char): (parts: seq<string>)
    ensures parts != [] && forall k :: 0 <= k < |parts| ==> sep !in parts[k]
  {
    var n := UntilChar(s, sep);
    if n == |s| then assert s[..n] == s; [s] else [s[..n]] + SplitOn(s[n + 1..], sep)
  }

  lemma {:induction false} UntilCharOf(a: string, sep: char, b: string)
    requires sep !in a
    ensures UntilChar(a + [sep] + b, sep) == |a|
  {
    var s := a + [sep] + b;
    if a == "" {
      assert s[0] == sep;
    } else {
      assert s[0] == a[0];
      assert s[1..] == a[1..] + [sep] + b;
      UntilCharOf(a[1..], sep, b);
    }
  }

  lemma SplitPair(a: string, sep: char, b: string)
    requires sep !in a && sep !in b
    ensures SplitOn(a + [sep] + b, sep) == [a, b]
  {
    var s := a + [sep] + b;
    UntilCharOf(a, sep, b);
    assert s[..|a|] == a && s[|a| + 1..] == b;
    if UntilChar(b, sep) < |b| { assert false; }
  }

  /** A whole part between separators or ends. */
  ghost predicate PartAt(s: string, sep: char, a: string, part: string, b: string) {
    && s == a + part + b && sep !in part
    && (a == "" || a[|a| - 1] == sep) && (b == "" || b[0] == sep)
  }

  lemma PartAfter(s: string, sep: char, n: nat, a: string, part: string, b: string)
    requires n < |s| && s[n] == sep && PartAt(s[n + 1..], sep, a, part, b)
    ensures PartAt(s, sep, s[..n + 1] + a, part, b)
  {
    assert s == s[..n + 1] + s[n + 1..];
    assert s == s[..n + 1] + a + part + b;
  }

  lemma PartBefore(s: string, sep: char, n: nat, a: string, part: string, b: string)
    requires n <= |s| && (n < |s| ==> s[n] == sep) && sep !in s[..n] && PartAt(s, sep, a, part, b)
    ensures a == "" ==> part == s[..n]
    ensures a != "" ==> n < |s| && |a| > n && PartAt(s[n + 1..], sep, a[n + 1..], part, b)
  {
    assert forall k :: 0 <= k < n ==> s[..n][k] == s[k] && s[k] != sep;
    if a == "" {
      assert s == part + b;
      assert b != "" ==> s[|part|] == sep;
      assert forall k :: 0 <= k < |part| ==> s[k] == part[k] && s[k] != sep;
      assert s[..|part|] == part;
    } else {
      assert s[|a| - 1] == sep;
      assert s[n + 1..] == a[n + 1..] + part + b;
    }
  }

  lemma SplitCases(s: string, sep: char)
    ensures var n := UntilChar(s, sep);
      SplitOn(s, sep) == [s[..n]] + if n < |s| then SplitOn(s[n + 1..], sep) else []
  {
    var n := UntilChar(s, sep);
    if n == |s| { assert s[..n] == s; }
  }

  /** `str.split` on one character gives exactly the parts between separators. */
  lemma {:induction false} PartExact(s: string, sep: char, part: string)
    ensures part in SplitOn(s, sep) <==> exists a, b :: PartAt(s, sep, a, part, b)
    decreases |s|
  {
    hide PartAt, SplitOn, UntilChar;
    var n := UntilChar(s, sep);
    SplitCases(s, sep);
    FirstPart(s, sep, n);
    if n < |s| {
      var rest := s[n + 1..];
      PartExact(rest, sep, part);
      if a, b :| PartAt(rest, sep, a, part, b) { PartAfter(s, sep, n, a, part, b); }
    }
    if a, b :| PartAt(s, sep, a, part, b) { PartBefore(s, sep, n, a, part, b); }
  }

  lemma FirstPart(s: string, sep: char, n: nat)
    requires n <= |s| && (n < |s| ==> s[n] == sep) && sep !in s[..n]
    ensures PartAt(s, sep, "", s[..n], s[n..])
  {
    assert s == "" + s[..n] + s[n..];
  }

  function StartsWith(s: string, p: string): bool {
    |p| <= |s| && s[..|p|] == p
  }

  function EndsWith(s: string, p: string): bool {
    |p| <= |s| && s[|s| - |p|..] == p
  }
}
