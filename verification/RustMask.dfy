/**
 The comment and literal masker of the debt ratchet: it blanks every comment, string,
 raw string and character literal of a Rust text and leaves everything else alone.
 */
module RustMask {
  import opened Prelude

  // ----- one token -----

  predicate At(s: string, i: nat, p: string) {
    i + |p| <= |s| && s[i..i + |p|] == p
  }

  predicate Pair(s: string, i: nat, a: char, b: char) {
    i + 1 < |s| && s[i] == a && s[i + 1] == b
  }

  predicate Visible(c: char) {
    c != ' ' && c != '\n'
  }

  predicate Hex(c: char) {
    '0' <= c <= '9' || 'a' <= c <= 'f' || 'A' <= c <= 'F'
  }

  /** The first line break at or after `i`, or the end of the text. */
  function LineEnd(s: string, i: nat): (e: nat)
    requires i <= |s|
    ensures i <= e <= |s|
    ensures e < |s| ==> s[e] == '\n'
    ensures forall k :: i <= k < e ==> s[k] != '\n'
    decreases |s| - i
  {
    if i == |s| || s[i] == '\n' then i else LineEnd(s, i + 1)
  }

  /** Where a block comment ends, scanning from `i` inside `depth` open comments. */
  function BlockEnd(s: string, i: nat, depth: nat): (e: nat)
    requires i <= |s|
    ensures i <= e <= |s|
    decreases |s| - i
  {
    if i == |s| || depth == 0 then i
    else if Pair(s, i, '/', '*') then BlockEnd(s, i + 2, depth + 1)
    else if Pair(s, i, '*', '/') then BlockEnd(s, i + 2, depth - 1)
    else BlockEnd(s, i + 1, depth)
  }

  /** Where a quoted string ends, scanning from `i` after the opening quote. */
  function StringEnd(s: string, i: nat): (e: nat)
    requires i <= |s|
    ensures i <= e <= |s|
    decreases |s| - i
  {
    if i == |s| then i
    else if s[i] == '\\' then (if i + 2 <= |s| then StringEnd(s, i + 2) else |s|)
    else if s[i] == '"' then i + 1
    else StringEnd(s, i + 1)
  }

  function HashRun(s: string, i: nat): (e: nat)
    requires i <= |s|
    ensures i <= e <= |s|
    ensures forall k :: i <= k < e ==> s[k] == '#'
    ensures e < |s| ==> s[e] != '#'
    decreases |s| - i
  {
    if i < |s| && s[i] == '#' then HashRun(s, i + 1) else i
  }

  /** The first occurrence of `p` at or after `i`. */
  function Find(s: string, p: string, i: nat): (r: Option<nat>)
    ensures r.Some? ==> i <= r.value && At(s, r.value, p)
    ensures r.Some? ==> forall k :: i <= k < r.value ==> !At(s, k, p)
    ensures r.None? ==> forall k :: i <= k ==> !At(s, k, p)
    decreases |s| - i
  {
    if i + |p| > |s| then None
    else if At(s, i, p) then Some(i)
    else Find(s, p, i + 1)
  }

  function Hashes(n: nat): (h: string)
    ensures |h| == n
    ensures forall k :: 0 <= k < n ==> h[k] == '#'
  {
    if n == 0 then "" else "#" + Hashes(n - 1)
  }

  /** Start of the hashes of a raw string prefix (`r`, `br` or `cr`) at `i`. */
  function RawPrefix(s: string, i: nat): (r: Option<nat>)
    requires i < |s|
    ensures r.Some? ==> i < r.value <= |s|
  {
    if (s[i] == 'b' || s[i] == 'c') && i + 1 < |s| && s[i + 1] == 'r' then Some(i + 2)
    else if s[i] == 'r' then Some(i + 1)
    else None
  }

  /** The quote that opens a raw string at `i`, if one does. */
  function RawQuote(s: string, i: nat): (r: Option<nat>)
    requires i < |s|
    ensures r.Some? ==> i < r.value < |s| && s[r.value] == '"'
  {
    match RawPrefix(s, i)
    case None => None
    case Some(p) =>
      var q := HashRun(s, p);
      if q < |s| && s[q] == '"' then Some(q) else None
  }

  function RawEnd(s: string, i: nat): (e: nat)
    requires i < |s| && RawQuote(s, i).Some?
    ensures i + 2 <= e <= |s|
  {
    var q := RawQuote(s, i).value;
    var delimiter := "\"" + Hashes(q - RawPrefix(s, i).value);
    match Find(s, delimiter, q + 1)
    case None => |s|
    case Some(k) => k + |delimiter|
  }

  function HexRun(s: string, i: nat): (e: nat)
    requires i <= |s|
    ensures i <= e <= |s|
    ensures forall k :: i <= k < e ==> Hex(s[k]) || s[k] == '_'
    ensures e < |s| ==> !Hex(s[e]) && s[e] != '_'
    decreases |s| - i
  {
    if i < |s| && (Hex(s[i]) || s[i] == '_') then HexRun(s, i + 1) else i
  }

  /** The end of a complete character literal whose opening quote is at `i`. */
  function CharEnd(s: string, i: nat): (r: Option<nat>)
    requires i < |s| && s[i] == '\''
    ensures r.Some? ==> i + 3 <= r.value <= |s| && s[r.value - 1] == '\''
  {
    if i + 2 < |s| && s[i + 1] !in {'\'', '\\', '\n'} && s[i + 2] == '\'' then Some(i + 3)
    else if i + 3 < |s| && s[i + 1] == '\\' then
      if s[i + 2] != '\n' && s[i + 3] == '\'' then Some(i + 4)
      else if i + 5 < |s| && s[i + 2] == 'x' && Hex(s[i + 3]) && Hex(s[i + 4]) && s[i + 5] == '\'' then Some(i + 6)
      else if s[i + 2] == 'u' && s[i + 3] == '{' then
        var k := HexRun(s, i + 4);
        if i + 4 < k && Pair(s, k, '}', '\'') then Some(k + 2) else None
      else None
    else None
  }

  /** The end of the comment or literal that starts at `i`; `i` itself when none does. */
  function TokenEnd(s: string, i: nat): (e: nat)
    requires i < |s|
    ensures i <= e <= |s|
    ensures e == i || i + 2 <= e || e == |s|
  {
    if Pair(s, i, '/', '/') then LineEnd(s, i + 2)
    else if Pair(s, i, '/', '*') then BlockEnd(s, i + 2, 1)
    else if RawQuote(s, i).Some? then RawEnd(s, i)
    else if s[i] == '"' then StringEnd(s, i + 1)
    else if s[i] == '\'' then (match CharEnd(s, i) case Some(e) => e case None => i)
    else i
  }

  // ----- the whole text -----

  function Blank(s: string): (b: string)
    ensures |b| == |s|
    ensures forall k :: 0 <= k < |s| ==> b[k] == if s[k] == '\n' then '\n' else ' '
  {
    seq(|s|, k requires 0 <= k < |s| => if s[k] == '\n' then '\n' else ' ')
  }

  /** The masked form of `s` from `i` on, where a token or a code character starts. */
  function Mask(s: string, i: nat): (m: string)
    requires i <= |s|
    ensures |m| == |s| - i
    decreases |s| - i
  {
    if i == |s| then ""
    else
      var e := TokenEnd(s, i);
      if e > i then Blank(s[i..e]) + Mask(s, e) else [s[i]] + Mask(s, i + 1)
  }

  /** Position `k` is reached as code when scanning from `i`. */
  ghost predicate Kept(s: string, i: nat, k: nat)
    requires i <= k < |s|
    decreases |s| - i
  {
    var e := TokenEnd(s, i);
    if e > i then k >= e && Kept(s, e, k)
    else k == i || Kept(s, i + 1, k)
  }

  /** Code is copied and starts no token; everything else becomes a blank of its own kind. */
  lemma {:induction false} MaskAt(s: string, i: nat, k: nat)
    requires i <= k < |s|
    ensures Kept(s, i, k) ==> Mask(s, i)[k - i] == s[k] && TokenEnd(s, k) == k
    ensures !Kept(s, i, k) ==> Mask(s, i)[k - i] == if s[k] == '\n' then '\n' else ' '
    decreases |s| - i
  {
    var e := TokenEnd(s, i);
    if e > i {
      if k >= e { MaskAt(s, e, k); }
    } else if k > i {
      MaskAt(s, i + 1, k);
    }
  }

  /** A masked character between two code characters does not exist. */
  lemma {:induction false} NoIsolatedBlank(s: string, i: nat, k: nat)
    requires i <= k && k + 2 < |s|
    requires Kept(s, i, k) && Kept(s, i, k + 2)
    ensures Kept(s, i, k + 1)
    decreases |s| - i
  {
    var e := TokenEnd(s, i);
    if e > i {
      NoIsolatedBlank(s, e, k);
    } else if k > i {
      NoIsolatedBlank(s, i + 1, k);
    } else {
      assert Kept(s, i + 1, k + 2);
      var f := TokenEnd(s, i + 1);
      assert f > i + 1 ==> f <= k + 2;
    }
  }

  /** Masking keeps length and line breaks, and changes characters only into spaces. */
  lemma MaskShape(s: string)
    ensures |Mask(s, 0)| == |s|
    ensures forall k :: 0 <= k < |s| ==> Mask(s, 0)[k] == s[k] || Mask(s, 0)[k] == ' '
    ensures forall k :: 0 <= k < |s| ==> (Mask(s, 0)[k] == '\n' <==> s[k] == '\n')
  {
    forall k | 0 <= k < |s|
      ensures Mask(s, 0)[k] == s[k] || Mask(s, 0)[k] == ' '
      ensures Mask(s, 0)[k] == '\n' <==> s[k] == '\n'
    {
      MaskAt(s, 0, k);
    }
  }

  /** A visible character of the masked text is code of the original text. */
  lemma VisibleIsCode(s: string, k: nat)
    requires k < |s| && Visible(Mask(s, 0)[k])
    ensures Kept(s, 0, k) && s[k] == Mask(s, 0)[k] && TokenEnd(s, k) == k
  {
    MaskAt(s, 0, k);
  }

  lemma {:induction false} HexRunAgrees(s: string, m: string, i: nat)
    requires |m| == |s| && i <= |s|
    requires forall k :: i <= k < HexRun(m, i) ==> s[k] == m[k]
    requires HexRun(m, i) < |m| ==> s[HexRun(m, i)] == m[HexRun(m, i)]
    ensures HexRun(s, i) == HexRun(m, i)
    decreases |s| - i
  {
    if i < |m| && (Hex(m[i]) || m[i] == '_') {
      HexRunAgrees(s, m, i + 1);
    }
  }

  /** Whether a character literal starts at `i` depends only on the characters it spans. */
  lemma CharEndAgrees(s: string, m: string, i: nat)
    requires |m| == |s| && i < |m| && m[i] == '\'' && CharEnd(m, i).Some?
    requires forall k :: i <= k < CharEnd(m, i).value ==> s[k] == m[k]
    ensures CharEnd(s, i) == CharEnd(m, i)
  {
    var e := CharEnd(m, i).value;
    assert s[i + 1] == m[i + 1] && s[i + 2] == m[i + 2] && s[e - 1] == m[e - 1];
    if m[i + 1] == '\\' {
      assert s[i + 3] == m[i + 3];
      if e != i + 4 && m[i + 2] == 'u' { HexRunAgrees(s, m, i + 4); }
    }
  }

  /** A blank inside a character literal has visible neighbours. */
  lemma BlankInsideLiteral(m: string, i: nat, k: nat)
    requires i < |m| && m[i] == '\'' && CharEnd(m, i).Some? && i <= k < CharEnd(m, i).value
    ensures m[k] != '\n'
    ensures m[k] == ' ' ==> i < k && k + 1 < |m| && Visible(m[k - 1]) && Visible(m[k + 1])
  {
  }

  /** A blank with visible neighbours is a space of the original text. */
  lemma BlankBetweenVisible(s: string, k: nat)
    requires 0 < k && k + 1 < |s| && Visible(Mask(s, 0)[k - 1]) && Visible(Mask(s, 0)[k + 1])
    ensures Mask(s, 0)[k] == s[k]
  {
    hide Mask, Kept, TokenEnd;
    VisibleIsCode(s, k - 1);
    VisibleIsCode(s, k + 1);
    NoIsolatedBlank(s, 0, k - 1);
    MaskAt(s, 0, k);
  }

  lemma CharLiteralIsCode(s: string, m: string, i: nat)
    requires m == Mask(s, 0) && i < |m| && m[i] == '\'' && CharEnd(m, i).Some?
    ensures |s| == |m| && s[i] == '\'' && CharEnd(s, i).Some?
  {
    forall k | i <= k < CharEnd(m, i).value ensures s[k] == m[k] {
      BlankInsideLiteral(m, i, k);
      if m[k] == ' ' { BlankBetweenVisible(s, k); } else { VisibleIsCode(s, k); }
    }
    CharEndAgrees(s, m, i);
  }

  /** What the start of a token looks like, kind by kind. */
  lemma TokenStart(m: string, i: nat)
    requires i < |m| && TokenEnd(m, i) > i
    ensures Visible(m[i])
    ensures Pair(m, i, '/', '/') || Pair(m, i, '/', '*') || RawQuote(m, i).Some? || m[i] == '"'
         || (m[i] == '\'' && CharEnd(m, i).Some?)
  {
  }

  lemma StartsToken(s: string, i: nat)
    requires i < |s|
    requires Pair(s, i, '/', '/') || Pair(s, i, '/', '*') || s[i] == '"' || (s[i] == '\'' && CharEnd(s, i).Some?)
    ensures TokenEnd(s, i) > i
  {
  }

  /** No comment, string, raw string or character literal starts anywhere in masked text. */
  lemma NothingLeftToMask(s: string, m: string, i: nat)
    requires m == Mask(s, 0) && i < |m|
    ensures TokenEnd(m, i) == i
  {
    if TokenEnd(m, i) > i {
      TokenStart(m, i);
      VisibleIsCode(s, i);
      if m[i] == '/' {
        VisibleIsCode(s, i + 1);
        StartsToken(s, i);
      } else if m[i] == '\'' {
        CharLiteralIsCode(s, m, i);
        StartsToken(s, i);
      } else {
        var q := if m[i] == '"' then i else RawQuote(m, i).value;
        VisibleIsCode(s, q);
        StartsToken(s, q);
      }
      assert false;
    }
  }

  lemma {:induction false} CodeIsUnchanged(m: string, i: nat)
    requires i <= |m|
    requires forall k :: i <= k < |m| ==> TokenEnd(m, k) == k
    ensures Mask(m, i) == m[i..]
    decreases |m| - i
  {
    if i < |m| {
      CodeIsUnchanged(m, i + 1);
    }
  }

  /** Masking twice masks no more than masking once. */
  lemma MaskIdempotent(s: string)
    ensures Mask(Mask(s, 0), 0) == Mask(s, 0)
  {
    var m := Mask(s, 0);
    forall i | 0 <= i < |m| ensures TokenEnd(m, i) == i { NothingLeftToMask(s, m, i); }
    CodeIsUnchanged(m, 0);
  }

  // ----- what counts as one token -----

  /** The inside of a block comment: characters and further comments. */
  datatype Comment = Done | Char(c: char, rest: Comment) | Nested(inner: Comment, rest: Comment) {
    function Text(): string {
      match this
      case Done => ""
      case Char(c, rest) => [c] + rest.Text()
      case Nested(inner, rest) => "/*" + inner.Text() + "*/" + rest.Text()
    }

    /** No two plain characters spell a delimiter, also not with what follows. */
    ghost predicate Plain(after: string) {
      match this
      case Done => true
      case Char(c, rest) =>
        var s := [c] + rest.Text() + after;
        !Pair(s, 0, '/', '*') && !Pair(s, 0, '*', '/') && rest.Plain(after)
      case Nested(inner, rest) =>
        inner.Plain("*/" + rest.Text() + after) && rest.Plain(after)
    }
  }

  lemma Split(s: string, i: nat, a: string, b: string)
    requires i <= |s| && s[i..] == a + b
    ensures i + |a| <= |s| && s[i..i + |a|] == a && s[i + |a|..] == b
    ensures forall k :: 0 <= k < |a| ==> s[i + k] == a[k]
  {
    assert |s[i..]| == |a| + |b|;
    assert s[i..i + |a|] == s[i..][..|a|];
    assert s[i + |a|..] == s[i..][|a|..];
    forall k | 0 <= k < |a| ensures s[i + k] == a[k] { assert s[i + k] == s[i..][k]; }
  }

  lemma PairAt(s: string, i: nat, t: string, a: char, b: char)
    requires i <= |s| && s[i..] == t
    ensures Pair(s, i, a, b) <==> Pair(t, 0, a, b)
  {
    if i < |s| { assert s[i] == t[0]; }
    if i + 1 < |s| { assert s[i + 1] == t[1]; }
  }

  /** The scanner passes over a comment body without changing its depth. */
  lemma {:induction false} CommentBodySpan(s: string, i: nat, c: Comment, after: string, depth: nat)
    requires i <= |s| && s[i..] == c.Text() + after && c.Plain(after) && depth > 0
    ensures i + |c.Text()| <= |s|
    ensures BlockEnd(s, i, depth) == BlockEnd(s, i + |c.Text()|, depth)
    decreases c
  {
    match c
    case Done =>
    case Char(x, rest) =>
      var t := [x] + rest.Text() + after;
      PairAt(s, i, t, '/', '*');
      PairAt(s, i, t, '*', '/');
      assert t == [x] + (rest.Text() + after);
      Split(s, i, [x], rest.Text() + after);
      CommentBodySpan(s, i + 1, rest, after, depth);
    case Nested(inner, rest) =>
      NestedBodySpan(s, i, inner, rest, after, depth);
  }

  lemma DelimiterStep(s: string, i: nat, depth: nat)
    requires i < |s| && depth > 0
    ensures Pair(s, i, '/', '*') ==> BlockEnd(s, i, depth) == BlockEnd(s, i + 2, depth + 1)
    ensures Pair(s, i, '*', '/') ==> BlockEnd(s, i, depth) == BlockEnd(s, i + 2, depth - 1)
  {
  }

  lemma Regroup(x: string, y: string, z: string)
    ensures "*/" + y + z == "*/" + (y + z)
    ensures "/*" + x + "*/" + y + z == "/*" + (x + ("*/" + y + z))
  {
  }

  lemma Opening(s: string, i: nat, t: string)
    requires i <= |s| && s[i..] == "/*" + t
    ensures Pair(s, i, '/', '*') && i + 2 <= |s| && s[i + 2..] == t
  {
    Split(s, i, "/*", t);
    assert s[i + 0] == '/' && s[i + 1] == '*';
  }

  lemma Closing(s: string, i: nat, body: string, t: string)
    requires i <= |s| && s[i..] == body + ("*/" + t)
    ensures i + |body| + 2 <= |s| && Pair(s, i + |body|, '*', '/') && s[i + |body| + 2..] == t
  {
    Split(s, i, body, "*/" + t);
    Split(s, i + |body|, "*/", t);
    assert s[i + |body| + 0] == '*' && s[i + |body| + 1] == '/';
  }

  lemma {:induction false} NestedBodySpan(s: string, i: nat, inner: Comment, rest: Comment, after: string, depth: nat)
    requires i <= |s| && depth > 0
    requires s[i..] == Nested(inner, rest).Text() + after && Nested(inner, rest).Plain(after)
    ensures i + |Nested(inner, rest).Text()| <= |s|
    ensures BlockEnd(s, i, depth) == BlockEnd(s, i + |Nested(inner, rest).Text()|, depth)
    decreases Nested(inner, rest), 1
  {
    hide BlockEnd;
    var x, y := inner.Text(), rest.Text();
    var close := "*/" + y + after;
    Regroup(x, y, after);
    Opening(s, i, x + close);
    Closing(s, i + 2, x, y + after);
    NestedDepth(s, i, inner, rest, after, close, depth);
  }

  lemma {:induction false} NestedDepth(
    s: string, i: nat, inner: Comment, rest: Comment, after: string, close: string, depth: nat)
    requires depth > 0 && i + 2 <= |s| && s[i + 2..] == inner.Text() + close && inner.Plain(close)
    requires var j := i + 2 + |inner.Text()|;
      && j + 2 <= |s| && Pair(s, i, '/', '*') && Pair(s, j, '*', '/')
      && s[j + 2..] == rest.Text() + after && rest.Plain(after)
    ensures i + 4 + |inner.Text()| + |rest.Text()| <= |s|
    ensures BlockEnd(s, i, depth) == BlockEnd(s, i + 4 + |inner.Text()| + |rest.Text()|, depth)
    decreases Nested(inner, rest), 0
  {
    hide BlockEnd, Comment.Plain, Comment.Text;
    var j := i + 2 + |inner.Text()|;
    DelimiterStep(s, i, depth);
    CommentBodySpan(s, i + 2, inner, close, depth + 1);
    DelimiterStep(s, j, depth + 1);
    CommentBodySpan(s, j + 2, rest, after, depth);
  }

  /** A block comment is one token up to its own close, however deeply comments nest inside it. */
  lemma NestedCommentIsOneToken(c: Comment, rest: string)
    requires c.Plain("*/" + rest)
    ensures var s := "/*" + c.Text() + "*/" + rest; TokenEnd(s, 0) == |s| - |rest|
  {
    hide BlockEnd, Comment.Plain, Comment.Text;
    var s := "/*" + c.Text() + "*/" + rest;
    assert s == "/*" + (c.Text() + ("*/" + rest));
    assert s[0..] == s;
    Opening(s, 0, c.Text() + ("*/" + rest));
    CommentBodySpan(s, 2, c, "*/" + rest, 1);
    Closing(s, 2, c.Text(), rest);
    DelimiterStep(s, 2 + |c.Text()|, 1);
    ClosedAt(s, 4 + |c.Text()|);
  }

  lemma ClosedAt(s: string, i: nat)
    requires i <= |s|
    ensures BlockEnd(s, i, 0) == i
  {
  }

  /** The inside of an unclosed comment: bodies, each ending where a further comment opens. */
  function OpenText(cs: seq<Comment>): string {
    if cs == [] then ""
    else if |cs| == 1 then cs[0].Text()
    else cs[0].Text() + ("/*" + OpenText(cs[1..]))
  }

  ghost predicate OpenPlain(cs: seq<Comment>) {
    if cs == [] then true
    else if |cs| == 1 then cs[0].Plain("")
    else cs[0].Plain("/*" + OpenText(cs[1..])) && OpenPlain(cs[1..])
  }

  lemma {:induction false} OpenBodySpan(s: string, i: nat, cs: seq<Comment>, depth: nat)
    requires i <= |s| && cs != [] && s[i..] == OpenText(cs) && OpenPlain(cs) && depth > 0
    ensures BlockEnd(s, i, depth) == |s|
    decreases |cs|
  {
    hide BlockEnd, Comment.Plain, Comment.Text;
    var c := cs[0];
    if |cs| == 1 {
      assert s[i..] == c.Text() + "";
      CommentBodySpan(s, i, c, "", depth);
      RunsOut(s, depth);
    } else {
      var tail := OpenText(cs[1..]);
      CommentBodySpan(s, i, c, "/*" + tail, depth);
      var j := i + |c.Text()|;
      Split(s, i, c.Text(), "/*" + tail);
      Opening(s, j, tail);
      DelimiterStep(s, j, depth);
      OpenBodySpan(s, j + 2, cs[1..], depth + 1);
    }
  }

  lemma RunsOut(s: string, depth: nat)
    ensures BlockEnd(s, |s|, depth) == |s|
  {
  }

  /** An unclosed block comment runs to the end of the text, whatever comments open or close inside it. */
  lemma UnclosedCommentRunsOut(cs: seq<Comment>)
    requires cs != [] && OpenPlain(cs)
    ensures var s := "/*" + OpenText(cs); TokenEnd(s, 0) == |s|
  {
    hide BlockEnd, OpenText, OpenPlain;
    var s := "/*" + OpenText(cs);
    assert s[0..] == s;
    Opening(s, 0, OpenText(cs));
    OpenBodySpan(s, 2, cs, 1);
  }

  /** What follows an opening: a body with its own close, or bodies that are never closed. */
  datatype Opened = Closes(body: Comment, rest: string) | RunsOn(bodies: seq<Comment>) {
    function Text(): string {
      match this
      case Closes(body, rest) => body.Text() + ("*/" + rest)
      case RunsOn(bodies) => OpenText(bodies)
    }

    ghost predicate Valid() {
      match this
      case Closes(body, rest) => body.Plain("*/" + rest)
      case RunsOn(bodies) => bodies != [] && OpenPlain(bodies)
    }
  }

  /** Puts a comment body in front of what follows, as long as no delimiter arises. */
  lemma Prepend(x: char, o: Opened) returns (p: Opened)
    requires o.Valid() && !Pair([x] + o.Text(), 0, '/', '*') && !Pair([x] + o.Text(), 0, '*', '/')
    ensures p.Valid() && p.Text() == [x] + o.Text()
  {
    match o
    case Closes(body, rest) =>
      p := Closes(Char(x, body), rest);
      assert [x] + body.Text() + ("*/" + rest) == [x] + o.Text();
    case RunsOn(bodies) =>
      var c := Char(x, bodies[0]);
      p := RunsOn([c] + bodies[1..]);
      assert ([c] + bodies[1..])[1..] == bodies[1..];
      if |bodies| == 1 {
        assert [x] + bodies[0].Text() + "" == [x] + o.Text();
      } else {
        assert [x] + bodies[0].Text() + ("/*" + OpenText(bodies[1..])) == [x] + o.Text();
      }
  }

  lemma NestedFits(inner: Comment, body: Comment, after: string, rest: string)
    requires body.Text() + after == rest && inner.Plain("*/" + rest) && body.Plain(after)
    ensures Nested(inner, body).Plain(after)
    ensures Nested(inner, body).Text() + after == "/*" + (inner.Text() + ("*/" + rest))
  {
    Regroup(inner.Text(), body.Text(), after);
    assert "*/" + body.Text() + after == "*/" + rest;
  }

  lemma PrependNested(inner: Comment, rest: string, o: Opened) returns (p: Opened)
    requires o.Valid() && o.Text() == rest && inner.Plain("*/" + rest)
    ensures p.Valid() && p.Text() == "/*" + (inner.Text() + ("*/" + rest))
  {
    hide Comment.Text, Comment.Plain;
    match o
    case Closes(body, after) =>
      NestedFits(inner, body, "*/" + after, rest);
      p := Closes(Nested(inner, body), after);
    case RunsOn(bodies) =>
      var c, more := Nested(inner, bodies[0]), bodies[1..];
      var after := if more == [] then "" else "/*" + OpenText(more);
      assert bodies[0].Text() + after == rest;
      NestedFits(inner, bodies[0], after, rest);
      p := RunsOn([c] + more);
      assert ([c] + more)[1..] == more;
      assert c.Text() + "" == c.Text();
  }

  /** Every text after an opening has one of the two forms, so the two results cover all block comments. */
  lemma {:induction false} EveryOpening(t: string) returns (o: Opened)
    ensures o.Valid() && o.Text() == t
    decreases |t|
  {
    if t == "" {
      o := RunsOn([Done]);
    } else if Pair(t, 0, '*', '/') {
      o := Closes(Done, t[2..]);
      assert t == "" + ("*/" + t[2..]);
    } else if Pair(t, 0, '/', '*') {
      var inner := EveryOpening(t[2..]);
      assert t == "/*" + t[2..];
      match inner
      case Closes(body, rest) =>
        var after := EveryOpening(rest);
        o := PrependNested(body, rest, after);
      case RunsOn(bodies) =>
        o := RunsOn([Done] + bodies);
        assert ([Done] + bodies)[1..] == bodies;
    } else {
      var rest := EveryOpening(t[1..]);
      assert t == [t[0]] + t[1..];
      o := Prepend(t[0], rest);
    }
  }

  /** The inside of a string literal: plain characters and escaped characters. */
  datatype Piece = Plain(c: char) | Escaped(c: char) {
    function Text(): string {
      if Plain? then [c] else ['\\', c]
    }

    predicate Valid() {
      Plain? ==> c != '"' && c != '\\'
    }
  }

  function Pieces(ps: seq<Piece>): string {
    if ps == [] then "" else ps[0].Text() + Pieces(ps[1..])
  }

  lemma PieceSpan(s: string, i: nat, p: Piece, tail: string)
    requires i <= |s| && s[i..] == p.Text() + tail && p.Valid()
    ensures i + |p.Text()| <= |s| && s[i + |p.Text()|..] == tail
    ensures StringEnd(s, i) == StringEnd(s, i + |p.Text()|)
  {
    Split(s, i, p.Text(), tail);
    assert s[i + 0] == p.Text()[0];
  }

  lemma {:induction false} StringBodySpan(s: string, i: nat, ps: seq<Piece>, after: string)
    requires i <= |s| && s[i..] == Pieces(ps) + after
    requires forall k :: 0 <= k < |ps| ==> ps[k].Valid()
    ensures i + |Pieces(ps)| <= |s| && StringEnd(s, i) == StringEnd(s, i + |Pieces(ps)|)
    decreases |ps|
  {
    hide StringEnd, Piece.Text, Piece.Valid;
    if ps != [] {
      assert s[i..] == ps[0].Text() + (Pieces(ps[1..]) + after);
      PieceSpan(s, i, ps[0], Pieces(ps[1..]) + after);
      StringBodySpan(s, i + |ps[0].Text()|, ps[1..], after);
    }
  }

  /** A string literal is one token up to its first unescaped quote; unclosed, up to the end. */
  lemma StringIsOneToken(ps: seq<Piece>, rest: string)
    requires forall k :: 0 <= k < |ps| ==> ps[k].Valid()
    ensures var s := "\"" + Pieces(ps) + "\"" + rest; TokenEnd(s, 0) == |s| - |rest|
    ensures var s := "\"" + Pieces(ps); TokenEnd(s, 0) == |s|
  {
    var s := "\"" + Pieces(ps) + "\"" + rest;
    assert s[1..] == Pieces(ps) + ("\"" + rest);
    StringBodySpan(s, 1, ps, "\"" + rest);
    assert s[1 + |Pieces(ps)|] == '"';
    var u := "\"" + Pieces(ps);
    assert u[1..] == Pieces(ps) + "";
    StringBodySpan(u, 1, ps, "");
  }

  lemma {:induction false} HashRunSpan(s: string, i: nat, n: nat)
    requires i + n < |s| && (forall k :: i <= k < i + n ==> s[k] == '#') && s[i + n] != '#'
    ensures HashRun(s, i) == i + n
    decreases n
  {
    if n > 0 { HashRunSpan(s, i + 1, n - 1); }
  }

  lemma FindFirst(s: string, d: string, from: nat, k: nat)
    requires from <= k && At(s, k, d)
    requires forall j :: from <= j < k ==> !At(s, j, d)
    ensures Find(s, d, from) == Some(k)
  {
  }

  lemma RawOpening(s: string, prefix: string, n: nat, tail: string)
    requires prefix in {"r", "br", "cr"} && s == prefix + Hashes(n) + "\"" + tail
    ensures RawPrefix(s, 0) == Some(|prefix|) && RawQuote(s, 0) == Some(|prefix| + n)
  {
    var p := |prefix|;
    assert s[0] == prefix[0] && (p == 2 ==> s[1] == prefix[1]);
    assert s == prefix + (Hashes(n) + ("\"" + tail));
    forall k | p <= k < p + n ensures s[k] == '#' { assert s[k] == Hashes(n)[k - p]; }
    HashRunSpan(s, p, n);
  }

  lemma RawEndAt(s: string, from: nat, body: string, d: string, rest: string)
    requires from <= |s| && s[from..] == body + d + rest
    requires forall k :: 0 <= k < |body| ==> !At(body + d + rest, k, d)
    ensures Find(s, d, from) == Some(from + |body|)
  {
    hide Find, At;
    var tail := body + d + rest;
    forall j | from <= j < from + |body| ensures !At(s, j, d) {
      AtSuffix(s, from, tail, j - from, d);
    }
    AtSuffix(s, from, tail, |body|, d);
    AtMiddle(body, d, rest);
    FindFirst(s, d, from, from + |body|);
  }

  lemma AtMiddle(a: string, d: string, b: string)
    ensures At(a + d + b, |a|, d)
  {
    assert (a + d + b)[|a|..|a| + |d|] == d;
  }

  /** A raw string ends at the first quote followed by as many hashes as opened it. */
  lemma RawStringIsOneToken(prefix: string, n: nat, body: string, rest: string)
    requires prefix in {"r", "br", "cr"}
    requires var d := "\"" + Hashes(n); forall k :: 0 <= k < |body| ==> !At(body + d + rest, k, d)
    ensures var s := prefix + Hashes(n) + "\"" + (body + ("\"" + Hashes(n)) + rest); TokenEnd(s, 0) == |s| - |rest|
  {
    hide Find, At, Hashes;
    var d := "\"" + Hashes(n);
    var tail := body + d + rest;
    var s := prefix + Hashes(n) + "\"" + tail;
    RawOpening(s, prefix, n, tail);
    var from := |prefix| + n + 1;
    assert s[from..] == tail;
    RawEndAt(s, from, body, d, rest);
    assert RawEnd(s, 0) == from + |body| + |d|;
    RawIsToken(s);
  }

  /** An unclosed raw string runs to the end of the text. */
  lemma UnclosedRawStringRunsOut(prefix: string, n: nat, body: string)
    requires prefix in {"r", "br", "cr"}
    requires forall k :: 0 <= k < |body| ==> !At(body, k, "\"" + Hashes(n))
    ensures var s := prefix + Hashes(n) + "\"" + body; TokenEnd(s, 0) == |s|
  {
    hide Find, At, Hashes;
    var d := "\"" + Hashes(n);
    var s := prefix + Hashes(n) + "\"" + body;
    RawOpening(s, prefix, n, body);
    var from := |prefix| + n + 1;
    assert s[from..] == body;
    forall j | from <= j ensures !At(s, j, d) {
      AtSuffix(s, from, body, j - from, d);
      if j - from >= |body| { PastEnd(body, j - from, d); }
    }
    assert Find(s, d, from).None?;
    RawIsToken(s);
  }

  lemma PastEnd(s: string, k: nat, d: string)
    requires k >= |s| && d != ""
    ensures !At(s, k, d)
  {
  }

  lemma RawIsToken(s: string)
    requires s != "" && RawQuote(s, 0).Some?
    ensures TokenEnd(s, 0) == RawEnd(s, 0)
  {
    hide RawEnd;
  }

  lemma SliceOfTail(s: string, from: nat, i: nat, j: nat)
    requires i <= j && from + j <= |s|
    ensures s[from..][i..j] == s[from + i..from + j]
  {
  }

  lemma AtSuffix(s: string, from: nat, tail: string, k: nat, d: string)
    requires from <= |s| && s[from..] == tail
    ensures At(s, from + k, d) <==> At(tail, k, d)
  {
    if k + |d| <= |tail| { SliceOfTail(s, from, k, k + |d|); }
  }

  // ----- the masker itself -----

  method BlockCommentEnd(text: string, index: nat) returns (end: nat)
    requires Pair(text, index, '/', '*')
    ensures end == BlockEnd(text, index + 2, 1)
  {
    var depth := 1;
    end := index + 2;
    while end < |text| && depth > 0
      invariant end <= |text| && depth >= 0
      invariant BlockEnd(text, end, depth) == BlockEnd(text, index + 2, 1)
      decreases |text| - end
    {
      if Pair(text, end, '/', '*') {
        depth := depth + 1;
        end := end + 2;
      } else if Pair(text, end, '*', '/') {
        depth := depth - 1;
        end := end + 2;
      } else {
        end := end + 1;
      }
    }
  }

  method StringLiteralEnd(text: string, index: nat) returns (end: nat)
    requires index < |text| && text[index] == '"'
    ensures end == StringEnd(text, index + 1)
  {
    end := index + 1;
    while end < |text|
      invariant end <= |text| && StringEnd(text, end) == StringEnd(text, index + 1)
    {
      if text[end] == '\\' {
        end := if end + 2 <= |text| then end + 2 else |text|;
      } else if text[end] == '"' {
        end := end + 1;
        break;
      } else {
        end := end + 1;
      }
    }
  }

  method ScanToken(text: string, index: nat) returns (end: nat)
    requires index < |text|
    ensures end == TokenEnd(text, index)
  {
    end := index;
    if Pair(text, index, '/', '/') {
      end := LineEnd(text, index + 2);
    } else if Pair(text, index, '/', '*') {
      end := BlockCommentEnd(text, index);
    } else if RawQuote(text, index).Some? {
      end := RawEnd(text, index);
    } else if text[index] == '"' {
      end := StringLiteralEnd(text, index);
    } else if text[index] == '\'' && CharEnd(text, index).Some? {
      end := CharEnd(text, index).value;
    }
  }

  lemma MaskStep(s: string, full: string, i: nat, e: nat)
    requires |full| == |s| && i < |s| && full[i..] == Mask(s, i) && e == TokenEnd(s, i)
    ensures e > i ==> full[e..] == Mask(s, e)
    ensures e > i ==> forall k :: i <= k < e ==> full[k] == if s[k] == '\n' then '\n' else ' '
    ensures e == i ==> full[i + 1..] == Mask(s, i + 1) && full[i] == s[i]
  {
    if e > i {
      assert full[i..] == Blank(s[i..e]) + Mask(s, e);
      assert full[e..] == full[i..][e - i..];
      forall k | i <= k < e ensures full[k] == if s[k] == '\n' then '\n' else ' ' {
        assert full[k] == full[i..][k - i];
      }
    } else {
      assert full[i] == full[i..][0];
      assert full[i + 1..] == full[i..][1..];
    }
  }

  /** Masks a text by overwriting a copy of it in place. */
  method RustCode(text: string) returns (masked: string)
    ensures masked == Mask(text, 0)
  {
    hide *;
    var cells := new char[|text|](k requires 0 <= k < |text| => text[k]);
    ghost var full := Mask(text, 0);
    var index := 0;
    assert full[0..] == full;
    while index < |text|
      invariant index <= |text|
      invariant full[index..] == Mask(text, index)
      invariant forall k :: 0 <= k < index ==> cells[k] == full[k]
      invariant forall k :: index <= k < |text| ==> cells[k] == text[k]
    {
      var end := ScanToken(text, index);
      MaskStep(text, full, index, end);
      if end > index {
        forall k | index <= k < end { cells[k] := if text[k] == '\n' then '\n' else ' '; }
        index := end;
      } else {
        index := index + 1;
      }
    }
    masked := cells[..];
  }
}
