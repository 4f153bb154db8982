/**
 The grammar behind the masker: the comments and literals of a Rust text written out form by
 form, and the proof that the scanner finds exactly these and blanks exactly these.
 */
module RustLexemes {
  import opened Prelude
  import opened RustMask

  datatype Lexeme =
    | LineComment(line: string)
    | BlockComment(body: Comment)
    | OpenComment(bodies: seq<Comment>)
    | RawString(prefix: string, hashes: nat, raw: string)
    | OpenRawString(prefix: string, hashes: nat, raw: string)
    | StringLiteral(pieces: seq<Piece>)
    | OpenString(pieces: seq<Piece>, dangling: bool)
    | PlainChar(c: char)
    | EscapedChar(c: char)
    | HexChar(high: char, low: char)
    | UnicodeChar(digits: string)
  {
    function Text(): string {
      match this
      case LineComment(line) => "//" + line
      case BlockComment(body) => "/*" + body.Text() + "*/"
      case OpenComment(bodies) => "/*" + OpenText(bodies)
      case RawString(prefix, n, raw) => prefix + Hashes(n) + "\"" + raw + "\"" + Hashes(n)
      case OpenRawString(prefix, n, raw) => prefix + Hashes(n) + "\"" + raw
      case StringLiteral(pieces) => "\"" + Pieces(pieces) + "\""
      case OpenString(pieces, dangling) => "\"" + Pieces(pieces) + if dangling then "\\" else ""
      case PlainChar(c) => ['\'', c, '\'']
      case EscapedChar(c) => ['\'', '\\', c, '\'']
      case HexChar(high, low) => ['\'', '\\', 'x', high, low, '\'']
      case UnicodeChar(digits) => "'\\u{" + digits + "}'"
    }

    /** The form is complete and ends here, given what follows it. */
    ghost predicate Valid(rest: string) {
      match this
      case LineComment(line) => '\n' !in line && (rest == "" || rest[0] == '\n')
      case BlockComment(body) => body.Plain("*/" + rest)
      case OpenComment(bodies) => bodies != [] && OpenPlain(bodies) && rest == ""
      case RawString(prefix, n, raw) =>
        && prefix in {"r", "br", "cr"}
        && forall k :: 0 <= k < |raw| ==> !At(raw + ("\"" + Hashes(n)) + rest, k, "\"" + Hashes(n))
      case OpenRawString(prefix, n, raw) =>
        && prefix in {"r", "br", "cr"} && rest == ""
        && forall k :: 0 <= k < |raw| ==> !At(raw, k, "\"" + Hashes(n))
      case StringLiteral(pieces) => forall k :: 0 <= k < |pieces| ==> pieces[k].Valid()
      case OpenString(pieces, _) => rest == "" && forall k :: 0 <= k < |pieces| ==> pieces[k].Valid()
      case PlainChar(c) => c != '\'' && c != '\\' && c != '\n'
      case EscapedChar(c) => c != '\n'
      case HexChar(high, low) => Hex(high) && Hex(low)
      case UnicodeChar(digits) => digits != "" && forall k :: 0 <= k < |digits| ==> Hex(digits[k]) || digits[k] == '_'
    }
  }

  /** The digits of the escapes. */
  lemma HexDigits(c: char)
    ensures Hex(c) <==> c in "0123456789abcdefABCDEF"
  {
    var digits := "0123456789abcdefABCDEF";
    if Hex(c) {
      var k := if c <= '9' then (c - '0') as int else if c <= 'F' then 16 + (c - 'A') as int else 10 + (c - 'a') as int;
      assert digits[k] == c;
    }
  }

  // ----- every form is one token -----

  lemma {:induction false} LineEndAt(s: string, i: nat, e: nat)
    requires i <= e <= |s| && (e < |s| ==> s[e] == '\n') && forall k :: i <= k < e ==> s[k] != '\n'
    ensures LineEnd(s, i) == e
  {
  }

  /** A line comment ends before the line feed, or at the end of the text. */
  lemma LineCommentIsOneToken(line: string, rest: string)
    requires '\n' !in line && (rest == "" || rest[0] == '\n')
    ensures TokenEnd("//" + line + rest, 0) == 2 + |line|
  {
    var s := "//" + line + rest;
    var e := 2 + |line|;
    assert s[0] == '/' && s[1] == '/';
    forall k | 2 <= k < e ensures s[k] != '\n' { assert s[k] == line[k - 2]; }
    assert rest != "" ==> s[e] == rest[0];
    LineEndAt(s, 2, e);
  }

  lemma DanglingString(ps: seq<Piece>)
    requires forall k :: 0 <= k < |ps| ==> ps[k].Valid()
    ensures var s := "\"" + Pieces(ps) + "\\"; TokenEnd(s, 0) == |s|
  {
    var s := "\"" + Pieces(ps) + "\\";
    assert s[1..] == Pieces(ps) + "\\";
    StringBodySpan(s, 1, ps, "\\");
    assert s[1 + |Pieces(ps)|] == '\\' && |s| == 2 + |Pieces(ps)|;
  }

  lemma HexRunAt(s: string, i: nat, e: nat)
    requires i <= e < |s| && !Hex(s[e]) && s[e] != '_' && forall k :: i <= k < e ==> Hex(s[k]) || s[k] == '_'
    ensures HexRun(s, i) == e
  {
    var h := HexRun(s, i);
  }

  /** A complete character literal is one token, whichever of the four forms it has. */
  lemma CharIsOneToken(l: Lexeme, rest: string)
    requires (l.PlainChar? || l.EscapedChar? || l.HexChar? || l.UnicodeChar?) && l.Valid(rest)
    ensures TokenEnd(l.Text() + rest, 0) == |l.Text()|
  {
    var s := l.Text() + rest;
    assert forall k :: 0 <= k < |l.Text()| ==> s[k] == l.Text()[k];
    match l
    case PlainChar(c) => assert s[1] == c && s[2] == '\'';
    case EscapedChar(c) => assert s[1] == '\\' && s[2] == c && s[3] == '\'';
    case HexChar(high, low) => assert s[1] == '\\' && s[2] == 'x' && s[3] == high && s[4] == low && s[5] == '\'';
    case UnicodeChar(digits) => UnicodeIsOneToken(digits, rest);
  }

  lemma UnicodeIsOneToken(digits: string, rest: string)
    requires digits != "" && forall k :: 0 <= k < |digits| ==> Hex(digits[k]) || digits[k] == '_'
    ensures var t := "'\\u{" + digits + "}'"; TokenEnd(t + rest, 0) == |t|
  {
    var s := "'\\u{" + digits + "}'" + rest;
    assert s[0] == '\'' && s[1] == '\\' && s[2] == 'u' && s[3] == '{';
    var e := 4 + |digits|;
    forall k | 4 <= k < e ensures Hex(s[k]) || s[k] == '_' { assert s[k] == digits[k - 4]; }
    assert s[e] == '}' && s[e + 1] == '\'';
    HexRunAt(s, 4, e);
  }

  lemma OneToken(l: Lexeme, rest: string)
    requires l.Valid(rest)
    ensures TokenEnd(l.Text() + rest, 0) == |l.Text()| > 0
  {
    hide TokenEnd, Hashes, Pieces, OpenText, OpenPlain, At;
    var s := l.Text() + rest;
    match l
    case LineComment(line) =>
      LineCommentIsOneToken(line, rest);
    case BlockComment(body) =>
      assert s == "/*" + body.Text() + "*/" + rest;
      NestedCommentIsOneToken(body, rest);
    case OpenComment(bodies) =>
      assert s == "/*" + OpenText(bodies);
      UnclosedCommentRunsOut(bodies);
    case RawString(_, _, _) => RawToken(l, rest);
    case OpenRawString(_, _, _) => RawToken(l, rest);
    case StringLiteral(pieces) =>
      assert s == "\"" + Pieces(pieces) + "\"" + rest;
      StringIsOneToken(pieces, rest);
    case OpenString(pieces, dangling) =>
      assert s == l.Text();
      if dangling { DanglingString(pieces); } else { OpenStringRunsOut(pieces); }
    case _ => CharIsOneToken(l, rest);
  }

  lemma RawToken(l: Lexeme, rest: string)
    requires (l.RawString? || l.OpenRawString?) && l.Valid(rest)
    ensures TokenEnd(l.Text() + rest, 0) == |l.Text()| > 0
  {
    hide TokenEnd, Hashes, At;
    var s := l.Text() + rest;
    if l.RawString? {
      assert s == l.prefix + Hashes(l.hashes) + "\"" + (l.raw + ("\"" + Hashes(l.hashes)) + rest);
      RawStringIsOneToken(l.prefix, l.hashes, l.raw, rest);
    } else {
      assert s == l.prefix + Hashes(l.hashes) + "\"" + l.raw;
      UnclosedRawStringRunsOut(l.prefix, l.hashes, l.raw);
    }
  }

  lemma OpenStringRunsOut(pieces: seq<Piece>)
    requires forall k :: 0 <= k < |pieces| ==> pieces[k].Valid()
    ensures var s := "\"" + Pieces(pieces) + ""; TokenEnd(s, 0) == |s|
  {
    assert "\"" + Pieces(pieces) + "" == "\"" + Pieces(pieces);
    StringIsOneToken(pieces, "");
  }

  // ----- every token has one of the forms -----

  /** The text up to the first quote that is not escaped, in pieces. */
  datatype Quoted = Ends(pieces: seq<Piece>, rest: string) | RunsOff(pieces: seq<Piece>, dangling: bool) {
    function Text(): string {
      match this
      case Ends(pieces, rest) => Pieces(pieces) + ("\"" + rest)
      case RunsOff(pieces, dangling) => Pieces(pieces) + if dangling then "\\" else ""
    }

    predicate Valid() {
      forall k :: 0 <= k < |pieces| ==> pieces[k].Valid()
    }
  }

  lemma MorePieces(p: Piece, q: Quoted) returns (r: Quoted)
    requires p.Valid() && q.Valid()
    ensures r.Valid() && r.Text() == p.Text() + q.Text()
  {
    var ps := [p] + q.pieces;
    assert ps[1..] == q.pieces;
    match q
    case Ends(pieces, rest) =>
      r := Ends(ps, rest);
      assert p.Text() + Pieces(pieces) + ("\"" + rest) == p.Text() + (Pieces(pieces) + ("\"" + rest));
    case RunsOff(pieces, dangling) =>
      r := RunsOff(ps, dangling);
      var end := if dangling then "\\" else "";
      assert p.Text() + Pieces(pieces) + end == p.Text() + (Pieces(pieces) + end);
  }

  /** Every text after an opening quote is of this form. */
  lemma {:induction false} EveryQuoted(t: string) returns (q: Quoted)
    ensures q.Valid() && q.Text() == t
    decreases |t|
  {
    if t == "" {
      q := RunsOff([], false);
    } else if t[0] == '"' {
      q := Ends([], t[1..]);
    } else if t[0] == '\\' && |t| == 1 {
      q := RunsOff([], true);
      assert t == "\\";
    } else if t[0] == '\\' {
      var rest := EveryQuoted(t[2..]);
      q := MorePieces(Escaped(t[1]), rest);
      assert t == ['\\', t[1]] + t[2..];
    } else {
      var rest := EveryQuoted(t[1..]);
      q := MorePieces(Piece.Plain(t[0]), rest);
      assert t == [t[0]] + t[1..];
    }
  }

  lemma LineCommentWritten(s: string) returns (l: Lexeme, rest: string)
    requires Pair(s, 0, '/', '/')
    ensures s == l.Text() + rest && l.Valid(rest)
  {
    var e := LineEnd(s, 2);
    l, rest := LineComment(s[2..e]), s[e..];
    assert s == s[..2] + s[2..e] + s[e..] && s[..2] == "//";
  }

  lemma BlockCommentWritten(s: string) returns (l: Lexeme, rest: string)
    requires Pair(s, 0, '/', '*')
    ensures s == l.Text() + rest && l.Valid(rest)
  {
    hide OpenText, OpenPlain;
    var o := EveryOpening(s[2..]);
    assert s == "/*" + s[2..];
    match o
    case Closes(body, after) =>
      l, rest := BlockComment(body), after;
      assert "/*" + (body.Text() + ("*/" + after)) == "/*" + body.Text() + "*/" + after;
    case RunsOn(bodies) =>
      l, rest := OpenComment(bodies), "";
  }

  lemma {:induction false} HashesAre(h: string)
    requires forall k :: 0 <= k < |h| ==> h[k] == '#'
    ensures h == Hashes(|h|)
  {
    if h != "" {
      HashesAre(h[1..]);
      assert h == "#" + h[1..];
    }
  }

  lemma RawOpeningWritten(s: string) returns (prefix: string, n: nat, tail: string)
    requires s != "" && RawQuote(s, 0).Some?
    ensures prefix in {"r", "br", "cr"} && s == prefix + Hashes(n) + "\"" + tail
  {
    var p, q := RawPrefix(s, 0).value, RawQuote(s, 0).value;
    prefix, n, tail := s[..p], q - p, s[q + 1..];
    assert prefix == if p == 1 then "r" else [s[0], 'r'];
    HashesAre(s[p..q]);
    assert s == s[..p] + s[p..q] + [s[q]] + s[q + 1..];
  }

  lemma RawStringWritten(s: string) returns (l: Lexeme, rest: string)
    requires s != "" && RawQuote(s, 0).Some?
    ensures s == l.Text() + rest && l.Valid(rest)
  {
    hide Hashes, RawQuote, At;
    var prefix, n, tail := RawOpeningWritten(s);
    var d := "\"" + Hashes(n);
    var found := Find(tail, d, 0);
    hide Find;
    if found.None? {
      l, rest := OpenRawString(prefix, n, tail), "";
    } else {
      SplitAt(tail, found.value, d);
      var raw := tail[..found.value];
      l, rest := RawString(prefix, n, raw), tail[found.value + |d|..];
      RawText(prefix, Hashes(n), raw, rest);
    }
  }

  lemma RawText(prefix: string, hashes: string, raw: string, rest: string)
    ensures prefix + hashes + "\"" + raw + "\"" + hashes + rest
         == prefix + hashes + "\"" + (raw + ("\"" + hashes) + rest)
  {
  }

  lemma SplitAt(t: string, k: nat, d: string)
    requires At(t, k, d)
    ensures k + |d| <= |t| && t == t[..k] + d + t[k + |d|..]
  {
    assert t == t[..k] + t[k..k + |d|] + t[k + |d|..];
  }

  lemma StringWritten(s: string) returns (l: Lexeme, rest: string)
    requires s != "" && s[0] == '"'
    ensures s == l.Text() + rest && l.Valid(rest)
  {
    hide Pieces;
    var q := EveryQuoted(s[1..]);
    assert s == "\"" + s[1..];
    match q
    case Ends(pieces, after) =>
      l, rest := StringLiteral(pieces), after;
      assert "\"" + (Pieces(pieces) + ("\"" + after)) == "\"" + Pieces(pieces) + "\"" + after;
    case RunsOff(pieces, dangling) =>
      l, rest := OpenString(pieces, dangling), "";
      var end := if dangling then "\\" else "";
      assert "\"" + (Pieces(pieces) + end) == "\"" + Pieces(pieces) + end;
  }

  lemma CharWritten(s: string) returns (l: Lexeme, rest: string)
    requires s != "" && s[0] == '\'' && CharEnd(s, 0).Some?
    ensures s == l.Text() + rest && l.Valid(rest)
  {
    hide HexRun;
    if s[1] != '\\' {
      l, rest := PlainChar(s[1]), s[3..];
      assert s == ['\'', s[1], '\''] + s[3..];
    } else if s[2] != '\n' && s[3] == '\'' {
      l, rest := EscapedChar(s[2]), s[4..];
      assert s == ['\'', '\\', s[2], '\''] + s[4..];
    } else if s[2] == 'x' {
      l, rest := HexChar(s[3], s[4]), s[6..];
      assert s == ['\'', '\\', 'x', s[3], s[4], '\''] + s[6..];
    } else {
      var k := HexRun(s, 4);
      l, rest := UnicodeChar(s[4..k]), s[k + 2..];
      assert s == s[..4] + s[4..k] + s[k..k + 2] + s[k + 2..];
      assert s[..4] == "'\\u{" && s[k..k + 2] == "}'";
    }
  }

  /** Whatever the scanner takes for a token has one of the forms. */
  lemma EveryToken(s: string) returns (l: Lexeme, rest: string)
    requires s != "" && TokenEnd(s, 0) > 0
    ensures s == l.Text() + rest && l.Valid(rest)
  {
    hide RawQuote, CharEnd, Lexeme.Text, Lexeme.Valid;
    TokenStart(s, 0);
    if Pair(s, 0, '/', '/') {
      l, rest := LineCommentWritten(s);
    } else if Pair(s, 0, '/', '*') {
      l, rest := BlockCommentWritten(s);
    } else if RawQuote(s, 0).Some? {
      l, rest := RawStringWritten(s);
    } else if s[0] == '"' {
      l, rest := StringWritten(s);
    } else {
      l, rest := CharWritten(s);
    }
  }

  ghost predicate Begins(l: Lexeme, rest: string, s: string) {
    s == l.Text() + rest && l.Valid(rest)
  }

  /** A token starts exactly where a form is written, and it spans exactly that form. */
  lemma TokenExact(s: string)
    requires s != ""
    ensures TokenEnd(s, 0) > 0 <==> exists l, rest :: Begins(l, rest, s)
    ensures forall l, rest :: Begins(l, rest, s) ==> TokenEnd(s, 0) == |l.Text()|
  {
    hide TokenEnd, Lexeme.Text, Lexeme.Valid;
    if TokenEnd(s, 0) > 0 {
      var l, rest := EveryToken(s);
      assert Begins(l, rest, s);
    }
    forall l, rest | Begins(l, rest, s) ensures TokenEnd(s, 0) == |l.Text()| > 0 { OneToken(l, rest); }
  }

  /** A lifetime starts no token: a quote, a name, and no closing quote after one character. */
  lemma LifetimeIsCode(name: string, rest: string)
    requires |name| >= 1 && name[0] != '\\'
    requires |name + rest| > 1 ==> (name + rest)[1] != '\''
    ensures TokenEnd("'" + name + rest, 0) == 0
  {
    var s := "'" + name + rest;
    assert s[0] == '\'' && s[1] == name[0];
    assert |s| > 2 ==> s[2] == (name + rest)[1];
  }

  // ----- the scanner looks only ahead -----

  lemma {:induction false} LineEndSuffix(s: string, i: nat, k: nat)
    requires i + k <= |s|
    ensures LineEnd(s, i + k) == i + LineEnd(s[i..], k)
    decreases |s| - i - k
  {
    if i + k < |s| {
      assert s[i + k] == s[i..][k];
      LineEndSuffix(s, i, k + 1);
    }
  }

  lemma PairSuffix(s: string, i: nat, k: nat, a: char, b: char)
    requires i <= |s|
    ensures Pair(s, i + k, a, b) <==> Pair(s[i..], k, a, b)
  {
    if i + k < |s| { assert s[i + k] == s[i..][k]; }
    if i + k + 1 < |s| { assert s[i + k + 1] == s[i..][k + 1]; }
  }

  lemma {:induction false} BlockEndSuffix(s: string, i: nat, k: nat, depth: nat)
    requires i + k <= |s|
    ensures BlockEnd(s, i + k, depth) == i + BlockEnd(s[i..], k, depth)
    decreases |s| - i - k
  {
    if i + k < |s| && depth > 0 {
      PairSuffix(s, i, k, '/', '*');
      PairSuffix(s, i, k, '*', '/');
      if Pair(s, i + k, '/', '*') {
        BlockEndSuffix(s, i, k + 2, depth + 1);
      } else if Pair(s, i + k, '*', '/') {
        BlockEndSuffix(s, i, k + 2, depth - 1);
      } else {
        BlockEndSuffix(s, i, k + 1, depth);
      }
    }
  }

  lemma {:induction false} StringEndSuffix(s: string, i: nat, k: nat)
    requires i + k <= |s|
    ensures StringEnd(s, i + k) == i + StringEnd(s[i..], k)
    decreases |s| - i - k
  {
    if i + k < |s| {
      assert s[i + k] == s[i..][k];
      if s[i + k] == '\\' {
        if i + k + 2 <= |s| { StringEndSuffix(s, i, k + 2); }
      } else if s[i + k] != '"' {
        StringEndSuffix(s, i, k + 1);
      }
    }
  }

  lemma {:induction false} HashRunSuffix(s: string, i: nat, k: nat)
    requires i + k <= |s|
    ensures HashRun(s, i + k) == i + HashRun(s[i..], k)
    decreases |s| - i - k
  {
    if i + k < |s| {
      assert s[i + k] == s[i..][k];
      HashRunSuffix(s, i, k + 1);
    }
  }

  lemma {:induction false} HexRunSuffix(s: string, i: nat, k: nat)
    requires i + k <= |s|
    ensures HexRun(s, i + k) == i + HexRun(s[i..], k)
    decreases |s| - i - k
  {
    if i + k < |s| {
      assert s[i + k] == s[i..][k];
      HexRunSuffix(s, i, k + 1);
    }
  }

  lemma {:induction false} FindSuffix(s: string, i: nat, p: string, k: nat)
    requires i <= |s| && p != ""
    ensures Find(s, p, i + k) == match Find(s[i..], p, k) case None => None case Some(j) => Some(i + j)
    decreases |s| - i - k
  {
    hide At;
    if i + k + |p| <= |s| {
      AtSuffix(s, i, s[i..], k, p);
      FindSuffix(s, i, p, k + 1);
    }
  }

  lemma RawQuoteSuffix(s: string, i: nat)
    requires i < |s|
    ensures RawPrefix(s, i) == match RawPrefix(s[i..], 0) case None => None case Some(p) => Some(i + p)
    ensures RawQuote(s, i) == match RawQuote(s[i..], 0) case None => None case Some(q) => Some(i + q)
  {
    hide HashRun;
    var t := s[i..];
    assert t[0] == s[i];
    if i + 1 < |s| { assert t[1] == s[i + 1]; }
    if RawPrefix(t, 0).Some? {
      var p := RawPrefix(t, 0).value;
      HashRunSuffix(s, i, p);
      var q := HashRun(t, p);
      if q < |t| { assert t[q] == s[i + q]; }
    }
  }

  lemma RawParts(t: string)
    requires t != "" && RawQuote(t, 0).Some?
    ensures RawPrefix(t, 0).Some? && RawPrefix(t, 0).value <= RawQuote(t, 0).value
  {
  }

  lemma RawEndSuffix(s: string, i: nat)
    requires i < |s| && RawQuote(s, i).Some?
    ensures RawQuote(s[i..], 0).Some? && RawEnd(s, i) == i + RawEnd(s[i..], 0)
  {
    hide Find, RawPrefix, RawQuote, Hashes;
    RawQuoteSuffix(s, i);
    var t := s[i..];
    RawParts(t);
    var q := RawQuote(t, 0).value;
    var d := "\"" + Hashes(q - RawPrefix(t, 0).value);
    FindSuffix(s, i, d, q + 1);
  }

  lemma CharEndSuffix(s: string, i: nat)
    requires i < |s| && s[i] == '\''
    ensures CharEnd(s, i) == match CharEnd(s[i..], 0) case None => None case Some(e) => Some(i + e)
  {
    hide HexRun;
    var t := s[i..];
    assert forall k :: 0 <= k < |t| ==> t[k] == s[i + k];
    if i + 4 <= |s| { HexRunSuffix(s, i, 4); }
    if i + 4 <= |s| { PairSuffix(s, i, HexRun(t, 4), '}', '\''); }
  }

  /** What starts at a position depends only on the text from there on. */
  lemma TokenEndSuffix(s: string, i: nat)
    requires i < |s|
    ensures TokenEnd(s, i) == i + TokenEnd(s[i..], 0)
  {
    hide LineEnd, BlockEnd, RawEnd, RawQuote, StringEnd, CharEnd;
    var t := s[i..];
    assert t[0] == s[i];
    PairSuffix(s, i, 0, '/', '/');
    PairSuffix(s, i, 0, '/', '*');
    RawQuoteSuffix(s, i);
    if i + 2 <= |s| {
      LineEndSuffix(s, i, 2);
      BlockEndSuffix(s, i, 2, 1);
    }
    if RawQuote(s, i).Some? { RawEndSuffix(s, i); }
    StringEndSuffix(s, i, 1);
    if s[i] == '\'' { CharEndSuffix(s, i); }
  }

  lemma SameToken(s: string, i: nat, k: nat)
    requires i + k < |s|
    ensures TokenEnd(s, i + k) == i + TokenEnd(s[i..], k) && s[i + k] == s[i..][k]
  {
    hide TokenEnd;
    TokenEndSuffix(s, i + k);
    TokenEndSuffix(s[i..], k);
    assert s[i + k..] == s[i..][k..];
  }

  lemma MaskUnfold(s: string, i: nat)
    requires i < |s|
    ensures var e := TokenEnd(s, i);
      Mask(s, i) == if e > i then Blank(s[i..e]) + Mask(s, e) else [s[i]] + Mask(s, i + 1)
  {
    hide TokenEnd;
  }

  lemma MaskEnd(s: string)
    ensures Mask(s, |s|) == ""
  {
  }

  lemma MaskAcross(s: string, t: string, i: nat, k: nat)
    requires i + k < |s| && t == s[i..]
    ensures var e := TokenEnd(t, k);
      if e > k then
        Mask(s, i + k) == Blank(t[k..e]) + Mask(s, i + e) && Mask(t, k) == Blank(t[k..e]) + Mask(t, e)
      else
        Mask(s, i + k) == [t[k]] + Mask(s, i + k + 1) && Mask(t, k) == [t[k]] + Mask(t, k + 1)
  {
    hide *;
    SameToken(s, i, k);
    MaskUnfold(s, i + k);
    MaskUnfold(t, k);
    var e := TokenEnd(t, k);
    if e > k { SliceOfTail(s, i, k, e); }
  }

  lemma {:induction false} MaskSuffix(s: string, i: nat, k: nat)
    requires i + k <= |s|
    ensures Mask(s, i + k) == Mask(s[i..], k)
    decreases |s| - i - k
  {
    hide *;
    var t := s[i..];
    if i + k == |s| {
      MaskEnd(s);
      MaskEnd(t);
    } else {
      MaskAcross(s, t, i, k);
      var e := TokenEnd(t, k);
      MaskSuffix(s, i, if e > k then e else k + 1);
    }
  }

  // ----- the whole text -----

  datatype Item = Token(lexeme: Lexeme) | Code(c: char) {
    function Text(): string {
      if Token? then lexeme.Text() else [c]
    }

    function Masked(): string {
      if Token? then Blank(lexeme.Text()) else [c]
    }
  }

  function ItemsText(items: seq<Item>): string {
    if items == [] then "" else items[0].Text() + ItemsText(items[1..])
  }

  function ItemsMasked(items: seq<Item>): string {
    if items == [] then "" else items[0].Masked() + ItemsMasked(items[1..])
  }

  /** Tokens are complete forms, and no form begins at a code character. */
  ghost predicate Lexes(items: seq<Item>) {
    items == [] ||
    var after := ItemsText(items[1..]);
    && (match items[0]
        case Token(l) => l.Valid(after)
        case Code(c) => forall l, rest :: !Begins(l, rest, [c] + after))
    && Lexes(items[1..])
  }

  /** The masker blanks exactly the comments and literals of a text and copies the rest. */
  lemma {:induction false} MaskLexed(items: seq<Item>)
    requires Lexes(items)
    ensures Mask(ItemsText(items), 0) == ItemsMasked(items)
    decreases |items|
  {
    hide TokenEnd, Lexeme.Text, Lexeme.Valid;
    if items != [] {
      var s, after := ItemsText(items), ItemsText(items[1..]);
      MaskLexed(items[1..]);
      match items[0]
      case Token(l) =>
        OneToken(l, after);
        assert s[0..|l.Text()|] == l.Text() && s[|l.Text()|..] == after;
        MaskSuffix(s, |l.Text()|, 0);
      case Code(c) =>
        TokenExact(s);
        assert s[1..] == after && s[0] == c;
        MaskSuffix(s, 1, 0);
    }
  }

  /** Every text is made of such tokens and code. */
  lemma {:induction false} EveryText(s: string) returns (items: seq<Item>)
    ensures ItemsText(items) == s && Lexes(items)
    decreases |s|
  {
    hide TokenEnd, Lexeme.Text, Lexeme.Valid;
    if s == "" {
      items := [];
    } else if TokenEnd(s, 0) > 0 {
      var l, rest := EveryToken(s);
      OneToken(l, rest);
      var more := EveryText(rest);
      items := [Token(l)] + more;
      assert items[1..] == more;
    } else {
      TokenExact(s);
      var more := EveryText(s[1..]);
      items := [Code(s[0])] + more;
      assert items[1..] == more && [s[0]] + s[1..] == s;
    }
  }
}
