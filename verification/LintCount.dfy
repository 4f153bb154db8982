/**
 The lint attribute counter of the debt ratchet: the number of `allow` and `expect` lists
 naming a dead-code lint, through any nesting of `cfg_attr`.
 */
module LintCount {
  import opened Prelude
  import opened Text
  import opened RustMask

  predicate Opens(c: char) { c == '(' || c == '[' || c == '{' }

  predicate Closes(c: char) { c == ')' || c == ']' || c == '}' }

  function Step(c: char, depth: int): int {
    if Opens(c) then depth + 1 else if Closes(c) then depth - 1 else depth
  }

  // ----- splitting a metadata list -----

  /** The arguments from `start` on, with `i` the next character and `depth` the open groups. */
  function ArgumentsFrom(text: string, start: nat, i: nat, depth: int): (args: seq<string>)
    requires start <= i <= |text|
    ensures args != [] && Weight(args) <= |text| - start + 1
    decreases |text| - i
  {
    if i == |text| then [Strip(text[start..])]
    else if text[i] == ',' && depth == 0 then
      var first := Strip(text[start..i]);
      var rest := ArgumentsFrom(text, i + 1, i + 1, 0);
      assert ([first] + rest)[1..] == rest;
      [first] + rest
    else ArgumentsFrom(text, start, i + 1, Step(text[i], depth))
  }

  function Arguments(text: string): (args: seq<string>)
    ensures args != [] && Weight(args) <= |text| + 1
  {
    ArgumentsFrom(text, 0, 0, 0)
  }

  /** The length of a worklist: its characters and its items. */
  function Weight(metas: seq<string>): nat {
    if metas == [] then 0 else |metas[0]| + 1 + Weight(metas[1..])
  }

  lemma {:induction false} WeightAppend(a: seq<string>, b: seq<string>)
    ensures Weight(a + b) == Weight(a) + Weight(b)
  {
    if a == [] {
      assert a + b == b;
    } else {
      assert (a + b)[1..] == a[1..] + b;
      WeightAppend(a[1..], b);
    }
  }

  lemma CommaIsNoBracket(c: char)
    ensures c == ',' ==> !Opens(c) && !Closes(c)
    ensures Opens(c) ==> !Closes(c)
  {
  }

  lemma ArgumentsStep(text: string, start: nat, i: nat, depth: int)
    requires start <= i < |text|
    ensures ArgumentsFrom(text, start, i, depth) ==
      if text[i] == ',' && depth == 0
      then [Strip(text[start..i])] + ArgumentsFrom(text, i + 1, i + 1, 0)
      else ArgumentsFrom(text, start, i + 1, Step(text[i], depth))
  {
  }

  lemma ArgumentsLast(text: string, start: nat, depth: int)
    requires start <= |text|
    ensures ArgumentsFrom(text, start, |text|, depth) == [Strip(text[start..])]
  {
  }

  method MetaArguments(text: string) returns (args: seq<string>)
    ensures args == Arguments(text)
  {
    hide ArgumentsFrom;
    var depth, start := 0, 0;
    args := [];
    for index := 0 to |text|
      invariant start <= index
      invariant args + ArgumentsFrom(text, start, index, depth) == Arguments(text)
    {
      ArgumentsStep(text, start, index, depth);
      CommaIsNoBracket(text[index]);
      if Opens(text[index]) {
        depth := depth + 1;
      } else if Closes(text[index]) {
        depth := depth - 1;
      } else if text[index] == ',' && depth == 0 {
        var first := Strip(text[start..index]);
        start := index + 1;
        ghost var rest := ArgumentsFrom(text, start, start, 0);
        assert args + ([first] + rest) == args + [first] + rest;
        args := args + [first];
      }
    }
    ArgumentsLast(text, start, depth);
    args := args + [Strip(text[start..])];
  }

  /** Groups close in order, and no comma lies outside a group, starting inside `depth` groups. */
  predicate Balanced(a: string, depth: nat) {
    if a == "" then depth == 0
    else if Opens(a[0]) then Balanced(a[1..], depth + 1)
    else if Closes(a[0]) then depth > 0 && Balanced(a[1..], depth - 1)
    else (a[0] == ',' ==> depth > 0) && Balanced(a[1..], depth)
  }

  predicate Argument(a: string) {
    Trimmed(a) && Balanced(a, 0)
  }

  /** The splitter passes over a balanced piece without splitting it. */
  lemma {:induction false} PassOver(text: string, start: nat, i: nat, a: string, tail: string, depth: nat, base: nat)
    requires start <= i <= |text| && text[i..] == a + tail && Balanced(a, depth)
    ensures i + |a| <= |text|
    ensures ArgumentsFrom(text, start, i, depth + base) == ArgumentsFrom(text, start, i + |a|, base)
    decreases |a|
  {
    assert |text[i..]| == |a| + |tail|;
    if a != "" {
      assert text[i] == text[i..][0] == a[0];
      assert text[i + 1..] == text[i..][1..] == a[1..] + tail;
      PassOver(text, start, i + 1, a[1..], tail, Step(a[0], depth), base);
    }
  }

  /** An argument as written, with white space on both sides. */
  datatype Spaced = Spaced(before: string, text: string, after: string) {
    function Whole(): string {
      before + text + after
    }

    predicate Blanks() {
      AllSpace(before) && AllSpace(after)
    }
  }

  function Texts(args: seq<Spaced>): seq<string> {
    seq(|args|, k requires 0 <= k < |args| => args[k].text)
  }

  function Wholes(args: seq<Spaced>): seq<string> {
    seq(|args|, k requires 0 <= k < |args| => args[k].Whole())
  }

  predicate ArgumentOk(a: Spaced) {
    a.Blanks() && Argument(a.text)
  }

  /** White space neither opens nor closes a group, so it does not matter to the nesting. */
  lemma {:induction false} BlankBefore(b: string, a: string, depth: nat)
    requires AllSpace(b)
    ensures Balanced(b + a, depth) <==> Balanced(a, depth)
    decreases |b|
  {
    if b == "" {
      assert b + a == a;
    } else {
      assert IsSpace(b[0]) && (b + a)[0] == b[0] && (b + a)[1..] == b[1..] + a;
      BlankBefore(b[1..], a, depth);
    }
  }

  lemma {:induction false} BlankAfter(a: string, b: string, depth: nat)
    requires AllSpace(b)
    ensures Balanced(a + b, depth) <==> Balanced(a, depth)
    decreases |a|
  {
    if a == "" {
      assert a + b == b + "";
      BlankBefore(b, "", depth);
    } else {
      assert (a + b)[0] == a[0] && (a + b)[1..] == a[1..] + b;
      if Opens(a[0]) || !Closes(a[0]) || depth > 0 { BlankAfter(a[1..], b, Step(a[0], depth)); }
    }
  }

  lemma BalancedPadded(a: Spaced, depth: nat)
    requires a.Blanks()
    ensures Balanced(a.Whole(), depth) <==> Balanced(a.text, depth)
  {
    BlankAfter(a.before + a.text, a.after, depth);
    BlankBefore(a.before, a.text, depth);
  }

  lemma SplitCons(text: string, i: nat, a: Spaced, joined: string, rest: seq<string>)
    requires i <= |text| && text[i..] == a.Whole() + ("," + joined) && ArgumentOk(a)
    requires i + |a.Whole()| + 1 <= |text|
    requires ArgumentsFrom(text, i + |a.Whole()| + 1, i + |a.Whole()| + 1, 0) == rest
    ensures ArgumentsFrom(text, i, i, 0) == [a.text] + rest
  {
    hide ArgumentsFrom, Balanced, Strip;
    var w := a.Whole();
    Split(text, i, w, "," + joined);
    Split(text, i + |w|, ",", joined);
    assert text[i + |w| + 0] == ',';
    BalancedPadded(a, 0);
    PassOver(text, i, i, w, "," + joined, 0, 0);
    ArgumentsStep(text, i, i + |w|, 0);
    StripPadded(a.before, a.text, a.after);
  }

  lemma SplitLast(text: string, i: nat, a: Spaced)
    requires i <= |text| && text[i..] == a.Whole() && ArgumentOk(a)
    ensures ArgumentsFrom(text, i, i, 0) == [a.text]
  {
    hide ArgumentsFrom, Balanced, Strip;
    var w := a.Whole();
    assert w == w + "";
    BalancedPadded(a, 0);
    PassOver(text, i, i, w, "", 0, 0);
    ArgumentsLast(text, i, 0);
    StripPadded(a.before, a.text, a.after);
  }

  lemma {:induction false} SplitJoinFrom(text: string, i: nat, args: seq<Spaced>)
    requires i <= |text| && args != [] && text[i..] == Join(Wholes(args), ",")
    requires forall k :: 0 <= k < |args| ==> ArgumentOk(args[k])
    ensures ArgumentsFrom(text, i, i, 0) == Texts(args)
    decreases |args|
  {
    hide ArgumentsFrom, ArgumentOk;
    var w := args[0].Whole();
    if |args| == 1 {
      SplitLast(text, i, args[0]);
    } else {
      assert Wholes(args)[1..] == Wholes(args[1..]);
      var joined := Join(Wholes(args[1..]), ",");
      assert w + "," + joined == w + ("," + joined);
      Split(text, i, w, "," + joined);
      Split(text, i + |w|, ",", joined);
      SplitJoinFrom(text, i + |w| + 1, args[1..]);
      SplitCons(text, i, args[0], joined, Texts(args[1..]));
      assert Texts(args) == [args[0].text] + Texts(args[1..]);
    }
  }

  /** Splitting a comma-joined list of balanced arguments, with any white space around them, gives the arguments. */
  lemma SplitJoin(args: seq<Spaced>)
    requires args != [] && forall k :: 0 <= k < |args| ==> ArgumentOk(args[k])
    ensures Arguments(Join(Wholes(args), ",")) == Texts(args)
  {
    var text := Join(Wholes(args), ",");
    assert text[0..] == text;
    SplitJoinFrom(text, 0, args);
  }

  // ----- one attribute -----

  datatype List = List(conditional: bool, inner: string)

  function Keyword(s: string): (n: nat)
    ensures n <= |s|
  {
    if StartsWith(s, "allow") then 5
    else if StartsWith(s, "expect") then 6
    else if StartsWith(s, "cfg_attr") then 8
    else 0
  }

  function Unraw(s: string): (t: string)
    ensures |t| <= |s|
  {
    if StartsWith(s, "r#") then s[2..] else s
  }

  /** The list form `allow(...)`, `expect(...)` or `cfg_attr(...)` of a whole meta item. */
  function ParseList(meta: string): (r: Option<List>)
    ensures r.Some? ==> |r.value.inner| + 2 <= |meta|
  {
    var s := Unraw(meta);
    var n := Keyword(s);
    if n == 0 then None
    else
      var p := SpaceRun(s, n);
      if p + 1 < |s| && s[p] == '(' && s[|s| - 1] == ')'
      then Some(List(n == 8, s[p + 1..|s| - 1]))
      else None
  }

  predicate LintTail(c: char) {
    'a' <= c <= 'z' || '0' <= c <= '9' || c == '_'
  }

  /** `dead_code`, `unused`, or `unused_` with at least one further character. */
  predicate DebtLint(arg: string) {
    var s := Unraw(arg);
    || s == "dead_code" || s == "unused"
    || (StartsWith(s, "unused_") && |s| > 7 && forall k :: 7 <= k < |s| ==> LintTail(s[k]))
  }

  /** A lint of the unused family: a name that is counted. */
  ghost predicate Counted(name: string) {
    || name == "dead_code" || name == "unused"
    || exists tail :: name == "unused_" + tail && NamePart(tail)
  }

  ghost predicate NamePart(s: string) {
    s != "" && forall k :: 0 <= k < |s| ==> s[k] == '_' || 'a' <= s[k] <= 'z' || '0' <= s[k] <= '9'
  }

  /** The debt lints, as plain or raw identifiers. */
  lemma DebtLintExact(arg: string)
    ensures DebtLint(arg) <==> Counted(arg) || exists name :: arg == "r#" + name && Counted(name)
  {
    CountedName(Unraw(arg));
    if StartsWith(arg, "r#") {
      assert arg == "r#" + arg[2..] && arg[0] == 'r';
      assert !Counted(arg) by { assert "dead_code"[0] == 'd' && "unused"[0] == 'u' && "unused_"[0] == 'u'; }
      forall name | arg == "r#" + name ensures name == Unraw(arg) { assert arg[2..] == name; }
    } else {
      forall name ensures arg != "r#" + name { assert ("r#" + name)[..2] == "r#"; }
    }
  }

  lemma CountedName(s: string)
    ensures Counted(s) <==>
      || s == "dead_code" || s == "unused"
      || (StartsWith(s, "unused_") && |s| > 7 && forall k :: 7 <= k < |s| ==> LintTail(s[k]))
  {
    if StartsWith(s, "unused_") && |s| > 7 && forall k :: 7 <= k < |s| ==> LintTail(s[k]) {
      var tail := s[7..];
      assert s == "unused_" + tail;
      forall k | 0 <= k < |tail| ensures LintTail(tail[k]) { assert tail[k] == s[k + 7]; }
      assert NamePart(tail);
    }
    if tail :| s == "unused_" + tail && NamePart(tail) {
      assert s[..7] == "unused_";
      forall k | 7 <= k < |s| ensures LintTail(s[k]) { assert s[k] == tail[k - 7]; }
    }
  }

  /** The lists of one meta item, counted by recursion through `cfg_attr`. */
  function MetaCount(meta: string): nat
    decreases |meta|, 0
  {
    match ParseList(meta)
    case None => 0
    case Some(list) =>
      var args := Arguments(list.inner);
      if list.conditional then MetasCount(args[1..])
      else if exists k :: 0 <= k < |args| && DebtLint(args[k]) then 1
      else 0
  }

  function MetasCount(metas: seq<string>): nat
    decreases Weight(metas), 1
  {
    if metas == [] then 0 else MetaCount(metas[0]) + MetasCount(metas[1..])
  }

  lemma {:induction false} MetasCountAppend(a: seq<string>, b: seq<string>)
    ensures MetasCount(a + b) == MetasCount(a) + MetasCount(b)
    decreases |a|
  {
    if a == [] {
      assert a + b == b;
    } else {
      assert (a + b)[1..] == a[1..] + b;
      MetasCountAppend(a[1..], b);
    }
  }

  /** The worklist form: a stack of meta items, longest total length first to go. */
  method CountMeta(meta: string) returns (count: nat)
    ensures count == MetaCount(meta)
  {
    count := 0;
    var pending := [meta];
    assert pending[1..] == [];
    while pending != []
      invariant count + MetasCount(pending) == MetaCount(meta)
      decreases Weight(pending)
    {
      var last := |pending| - 1;
      var item := pending[last];
      ghost var whole := pending;
      pending := pending[..last];
      assert whole == pending + [item] && [item][1..] == [];
      WeightAppend(pending, [item]);
      MetasCountAppend(pending, [item]);
      var list := ParseList(item);
      if list.Some? {
        var arguments := MetaArguments(list.value.inner);
        if list.value.conditional {
          WeightAppend(pending, arguments[1..]);
          MetasCountAppend(pending, arguments[1..]);
          pending := pending + arguments[1..];
        } else if exists k :: 0 <= k < |arguments| && DebtLint(arguments[k]) {
          count := count + 1;
        }
      }
    }
  }

  // ----- a whole file -----

  /** The position after `#`, `!` and `[` with any spaces between, if an attribute opens at `k`. */
  function AttributeOpen(code: string, k: nat): (r: Option<nat>)
    requires k < |code|
    ensures r.Some? ==> k + 2 <= r.value <= |code|
  {
    if code[k] != '#' then None
    else
      var p := SpaceRun(code, k + 1);
      var q := if p < |code| && code[p] == '!' then SpaceRun(code, p + 1) else p;
      if q < |code| && code[q] == '[' then Some(q + 1) else None
  }

  function NextAttribute(code: string, offset: nat): (r: Option<nat>)
    requires offset <= |code|
    ensures r.Some? ==> offset + 2 <= r.value <= |code|
    decreases |code| - offset
  {
    if offset == |code| then None
    else if AttributeOpen(code, offset).Some? then AttributeOpen(code, offset)
    else NextAttribute(code, offset + 1)
  }

  function SquareStep(c: char, depth: int): int {
    if c == '[' then depth + 1 else if c == ']' then depth - 1 else depth
  }

  /** The position after the bracket that closes `depth` open ones. */
  function BracketEnd(code: string, i: nat, depth: nat): (r: Option<nat>)
    requires i <= |code|
    ensures r.Some? ==> i + depth <= r.value <= |code|
    decreases |code| - i
  {
    if depth == 0 then Some(i)
    else if i == |code| then None
    else BracketEnd(code, i + 1, SquareStep(code[i], depth))
  }

  function CountFrom(code: string, offset: nat): nat
    requires offset <= |code|
    decreases |code| - offset
  {
    match NextAttribute(code, offset)
    case None => 0
    case Some(start) =>
      match BracketEnd(code, start, 1)
      case None => 0
      case Some(end) => MetaCount(Strip(code[start..end - 1])) + CountFrom(code, end)
  }

  /** The debt of a Rust text: the lists in its code, comments and literals left out. */
  function LintDebt(text: string): nat {
    CountFrom(Mask(text, 0), 0)
  }

  method CountLintAttributes(text: string) returns (count: nat)
    ensures count == LintDebt(text)
  {
    hide *;
    var code := RustCode(text);
    count := 0;
    var offset := 0;
    DebtIsCount(text);
    while true
      invariant offset <= |code|
      invariant count + CountFrom(code, offset) == LintDebt(text)
      decreases |code| - offset
    {
      CountStep(code, offset);
      var start := NextAttribute(code, offset);
      if start.None? { break; }
      var end, depth := start.value, 1;
      while end < |code| && depth > 0
        invariant start.value <= end <= |code| && depth >= 0
        invariant BracketEnd(code, end, depth) == BracketEnd(code, start.value, 1)
      {
        BracketStep(code, end, depth);
        if code[end] == '[' {
          depth := depth + 1;
        } else if code[end] == ']' {
          depth := depth - 1;
        }
        end := end + 1;
      }
      BracketStep(code, end, depth);
      if depth > 0 { break; }
      var n := CountMeta(Strip(code[start.value..end - 1]));
      count := count + n;
      offset := end;
    }
  }

  lemma DebtIsCount(text: string)
    ensures LintDebt(text) == CountFrom(Mask(text, 0), 0)
  {
  }

  lemma CountStep(code: string, offset: nat)
    requires offset <= |code|
    ensures NextAttribute(code, offset).None? ==> CountFrom(code, offset) == 0
    ensures NextAttribute(code, offset).Some? ==>
      var start := NextAttribute(code, offset).value;
      match BracketEnd(code, start, 1)
      case None => CountFrom(code, offset) == 0
      case Some(end) => CountFrom(code, offset) == MetaCount(Strip(code[start..end - 1])) + CountFrom(code, end)
  {
  }

  lemma BracketStep(code: string, i: nat, depth: nat)
    requires i <= |code|
    ensures depth == 0 ==> BracketEnd(code, i, depth) == Some(i)
    ensures depth > 0 && i == |code| ==> BracketEnd(code, i, depth) == None
    ensures depth > 0 && i < |code| ==>
      BracketEnd(code, i, depth) ==
        BracketEnd(code, i + 1, if code[i] == '[' then depth + 1 else if code[i] == ']' then depth - 1 else depth)
  {
  }

  /** Masking a text leaves its debt unchanged. */
  lemma MaskedTextHasSameDebt(text: string)
    ensures LintDebt(Mask(text, 0)) == LintDebt(text)
  {
    MaskIdempotent(text);
  }

  // ----- what is counted -----

  /** Square brackets close in order, starting inside `depth` of them. */
  predicate Squared(a: string, depth: nat) {
    if a == "" then depth == 0
    else if a[0] == '[' then Squared(a[1..], depth + 1)
    else if a[0] == ']' then depth > 0 && Squared(a[1..], depth - 1)
    else Squared(a[1..], depth)
  }

  predicate Atom(a: string) {
    Argument(a) && Squared(a, 0)
  }

  predicate AtomOk(a: Spaced) {
    a.Blanks() && Atom(a.text)
  }

  /** A keyword as written, perhaps as a raw identifier, and the white space before its list. */
  datatype Head = Head(raw: bool, keyword: string, gap: string) {
    function Text(): string {
      (if raw then "r#" else "") + keyword + gap
    }

    predicate Valid(keywords: set<string>) {
      keyword in keywords && AllSpace(gap)
    }
  }

  /** An attribute as its author meant it; an empty list is a list of one empty name. */
  datatype Form =
    | Lints(head: Head, names: seq<Spaced>)
    | Conditional(head: Head, condition: Spaced, inner: seq<Meta>)
    | Other(text: string)

  /** And as written, with white space on both sides. */
  datatype Meta = Meta(before: string, form: Form, after: string)

  function ListText(head: Head, parts: seq<Spaced>): string {
    head.Text() + "(" + Join(Wholes(parts), ",") + ")"
  }

  function FormText(f: Form): string
    decreases f, 2
  {
    match f
    case Lints(head, names) => ListText(head, names)
    case Conditional(head, condition, inner) => ListText(head, [condition] + Written(inner))
    case Other(text) => text
  }

  function Written(ms: seq<Meta>): (ts: seq<Spaced>)
    ensures |ts| == |ms|
    ensures forall k :: 0 <= k < |ms| ==> ts[k] == Spaced(ms[k].before, FormText(ms[k].form), ms[k].after)
    decreases ms, 0
  {
    if ms == [] then []
    else [Spaced(ms[0].before, FormText(ms[0].form), ms[0].after)] + Written(ms[1..])
  }

  function MetaText(m: Meta): string {
    m.before + FormText(m.form) + m.after
  }

  ghost predicate ValidForm(f: Form)
    decreases f, 2
  {
    match f
    case Lints(head, names) =>
      head.Valid({"allow", "expect"}) && names != [] && forall k :: 0 <= k < |names| ==> AtomOk(names[k])
    case Conditional(head, condition, inner) => head.Valid({"cfg_attr"}) && AtomOk(condition) && ValidMetas(inner)
    case Other(text) => Atom(text) && ParseList(text).None?
  }

  ghost predicate ValidMetas(ms: seq<Meta>)
    decreases ms, 0
  {
    ms == [] || (AllSpace(ms[0].before) && ValidForm(ms[0].form) && AllSpace(ms[0].after) && ValidMetas(ms[1..]))
  }

  ghost predicate ValidMeta(m: Meta) {
    AllSpace(m.before) && ValidForm(m.form) && AllSpace(m.after)
  }

  /** Each list that names a debt lint counts once, wherever it stands. */
  function Debt(f: Form): nat
    decreases f, 2
  {
    match f
    case Lints(_, names) => if exists k :: 0 <= k < |names| && DebtLint(names[k].text) then 1 else 0
    case Conditional(_, _, inner) => Debts(inner)
    case Other(_) => 0
  }

  function Debts(ms: seq<Meta>): nat
    decreases ms, 0
  {
    if ms == [] then 0 else Debt(ms[0].form) + Debts(ms[1..])
  }

  lemma {:induction false} BalancedAppend(a: string, b: string, d: nat, e: nat)
    requires Balanced(a, d) && Balanced(b, e)
    ensures Balanced(a + b, d + e)
    decreases |a|
  {
    if a == "" {
      assert a + b == b;
    } else {
      assert (a + b)[0] == a[0] && (a + b)[1..] == a[1..] + b;
      BalancedAppend(a[1..], b, if Opens(a[0]) then d + 1 else if Closes(a[0]) then d - 1 else d, e);
    }
  }

  lemma {:induction false} SquaredAppend(a: string, b: string, d: nat, e: nat)
    requires Squared(a, d) && Squared(b, e)
    ensures Squared(a + b, d + e)
    decreases |a|
  {
    if a == "" {
      assert a + b == b;
    } else {
      assert (a + b)[0] == a[0] && (a + b)[1..] == a[1..] + b;
      SquaredAppend(a[1..], b, if a[0] == '[' then d + 1 else if a[0] == ']' then d - 1 else d, e);
    }
  }

  /** A comma-joined list of atoms and its closing parenthesis is balanced inside one group. */
  lemma {:induction false} JoinBalanced(parts: seq<Spaced>)
    requires forall k :: 0 <= k < |parts| ==> AtomOk(parts[k])
    ensures Balanced(Join(Wholes(parts), ",") + ")", 1) && Squared(Join(Wholes(parts), ",") + ")", 0)
    decreases |parts|
  {
    hide AtomOk;
    assert Balanced(")", 1) && Squared(")", 0) by { assert ")"[1..] == ""; }
    if parts == [] {
      assert Join(Wholes(parts), ",") + ")" == ")";
    } else {
      var w := parts[0].Whole();
      PaddedPiece(parts[0]);
      if |parts| == 1 {
        BalancedAppend(w, ")", 0, 1);
        SquaredAppend(w, ")", 0, 0);
      } else {
        assert Wholes(parts)[1..] == Wholes(parts[1..]);
        var rest := Join(Wholes(parts[1..]), ",") + ")";
        JoinBalanced(parts[1..]);
        var t := "," + rest;
        assert t[0] == ',' && t[1..] == rest;
        CommaIsNoBracket(t[0]);
        assert Balanced(t, 1) && Squared(t, 0);
        BalancedAppend(w, t, 0, 1);
        SquaredAppend(w, t, 0, 0);
        assert Join(Wholes(parts), ",") + ")" == w + t;
      }
    }
  }

  lemma PaddedPiece(a: Spaced)
    requires AtomOk(a)
    ensures Balanced(a.Whole(), 0) && Squared(a.Whole(), 0)
  {
    hide Balanced, Squared;
    BalancedPadded(a, 0);
    SquaredPadded(a);
  }

  lemma SquaredPadded(a: Spaced)
    requires a.Blanks() && Squared(a.text, 0)
    ensures Squared(a.Whole(), 0)
  {
    SquaredBlank(a.before);
    SquaredBlank(a.after);
    SquaredAppend(a.before, a.text, 0, 0);
    SquaredAppend(a.before + a.text, a.after, 0, 0);
  }

  lemma {:induction false} SquaredBlank(b: string)
    requires AllSpace(b)
    ensures Squared(b, 0)
  {
    if b != "" {
      assert IsSpace(b[0]);
      SquaredBlank(b[1..]);
    }
  }

  predicate PlainChar(c: char) {
    !Opens(c) && !Closes(c) && c != ','
  }

  lemma {:induction false} PlainPrefix(a: string, b: string)
    requires forall k :: 0 <= k < |a| ==> PlainChar(a[k])
    requires Balanced(b, 0) && Squared(b, 0)
    ensures Balanced(a + b, 0) && Squared(a + b, 0)
    decreases |a|
  {
    if a == "" {
      assert a + b == b;
    } else {
      assert (a + b)[0] == a[0] && (a + b)[1..] == a[1..] + b;
      PlainPrefix(a[1..], b);
    }
  }

  const KEYWORDS := {"allow", "expect", "cfg_attr"}

  /** A list form is an atom, and it parses back into its keyword and its inside. */
  lemma ListForm(head: Head, parts: seq<Spaced>)
    requires head.Valid(KEYWORDS) && forall k :: 0 <= k < |parts| ==> AtomOk(parts[k])
    ensures Atom(ListText(head, parts))
    ensures ParseList(ListText(head, parts)) == Some(List(head.keyword == "cfg_attr", Join(Wholes(parts), ",")))
  {
    hide ParseList, Balanced, Squared, Join;
    JoinBalanced(parts);
    ListFormBalanced(head, Join(Wholes(parts), ","));
    ListFormParses(head, Join(Wholes(parts), ","));
  }

  lemma ListFormBalanced(head: Head, joined: string)
    requires head.Valid(KEYWORDS) && Balanced(joined + ")", 1) && Squared(joined + ")", 0)
    ensures var t := head.Text() + "(" + joined + ")"; Balanced(t, 0) && Squared(t, 0)
  {
    var group := "(" + (joined + ")");
    assert group[0] == '(' && group[1..] == joined + ")";
    assert Balanced(group, 0) && Squared(group, 0);
    assert head.Text() + "(" + joined + ")" == head.Text() + group;
    HeadPrefix(head, group);
  }

  lemma HeadPrefix(head: Head, group: string)
    requires head.Valid(KEYWORDS) && Balanced(group, 0) && Squared(group, 0)
    ensures Balanced(head.Text() + group, 0) && Squared(head.Text() + group, 0)
  {
    hide Balanced, Squared;
    PlainSpace(head.gap);
    PlainPrefix(head.gap, group);
    PlainKeyword(head.keyword);
    PlainPrefix(head.keyword, head.gap + group);
    assert head.keyword + (head.gap + group) == head.keyword + head.gap + group;
    if head.raw {
      PlainPrefix("r#", head.keyword + head.gap + group);
      assert "r#" + (head.keyword + head.gap + group) == head.Text() + group;
    } else {
      assert head.Text() == head.keyword + head.gap;
    }
  }

  lemma PlainSpace(gap: string)
    requires AllSpace(gap)
    ensures forall k :: 0 <= k < |gap| ==> PlainChar(gap[k])
  {
    forall k | 0 <= k < |gap| ensures PlainChar(gap[k]) { assert IsSpace(gap[k]); }
  }

  lemma PlainKeyword(keyword: string)
    requires keyword in KEYWORDS
    ensures forall k :: 0 <= k < |keyword| ==> PlainChar(keyword[k])
  {
  }

  lemma ListFormParses(head: Head, joined: string)
    requires head.Valid(KEYWORDS)
    ensures var t := head.Text() + "(" + joined + ")";
      Trimmed(t) && ParseList(t) == Some(List(head.keyword == "cfg_attr", joined))
  {
    hide SpaceRun, Unraw, Keyword, ParseList, IsSpace;
    var group := "(" + joined + ")";
    var t := head.Text() + "(" + joined + ")";
    var s := head.keyword + (head.gap + group);
    assert t == (if head.raw then "r#" else "") + s;
    KeywordRead(head.keyword, head.gap + group);
    Unrawed(head, s);
    ParsesGroup(t, head.keyword, head.gap, joined);
    ParenthesisVisible(joined);
    assert t[|t| - 1] == group[|group| - 1];
  }

  lemma ParenthesisVisible(joined: string)
    ensures var group := "(" + joined + ")"; !IsSpace(group[0]) && !IsSpace(group[|group| - 1])
  {
  }

  lemma ParsesGroup(t: string, keyword: string, gap: string, joined: string)
    requires var s := keyword + (gap + ("(" + joined + ")")); Unraw(t) == s && Keyword(s) == |keyword| > 0
    requires AllSpace(gap)
    ensures ParseList(t) == Some(List(|keyword| == 8, joined))
  {
    hide Unraw, Keyword, SpaceRun;
    var group := "(" + joined + ")";
    var s := keyword + (gap + group);
    var n, p := |keyword|, |keyword| + |gap|;
    assert s[n..] == gap + group && s[p..] == group;
    SpaceRunOver(s, n, gap, group);
    assert |s| == p + |group| && s[p] == s[p..][0] && s[|s| - 1] == s[p..][|joined| + 1];
    assert s[p + 1..|s| - 1] == s[p..][1..|joined| + 1] == joined;
  }

  lemma Unrawed(head: Head, s: string)
    requires head.keyword in KEYWORDS && StartsWith(s, head.keyword)
    ensures var t := (if head.raw then "r#" else "") + s; Unraw(t) == s && t != "" && !IsSpace(t[0])
  {
    var t := (if head.raw then "r#" else "") + s;
    assert s[0] == head.keyword[0] && s[1] == head.keyword[1];
    if head.raw {
      assert t[..2] == "r#" && t[2..] == s && t[0] == 'r';
    } else {
      assert t == s;
      assert !StartsWith(t, "r#") by { assert t[..2][0] == t[0]; }
    }
  }

  lemma KeywordRead(keyword: string, rest: string)
    requires keyword in KEYWORDS
    ensures Keyword(keyword + rest) == |keyword| && StartsWith(keyword + rest, keyword)
  {
    var s := keyword + rest;
    assert s[..|keyword|] == keyword && s[0] == keyword[0];
    assert s[..5][0] == s[0];
    assert |s| >= 6 ==> s[..6][0] == s[0];
  }

  lemma {:induction false} FormIsAtom(f: Form)
    requires ValidForm(f)
    ensures Atom(FormText(f))
    decreases f, 2
  {
    hide Atom, ParseList;
    match f
    case Lints(head, names) => ListForm(head, names);
    case Conditional(head, condition, inner) =>
      MetasAreAtoms(inner);
      ListForm(head, [condition] + Written(inner));
    case Other(_) =>
  }

  lemma {:induction false} MetasAreAtoms(ms: seq<Meta>)
    requires ValidMetas(ms)
    ensures forall k :: 0 <= k < |ms| ==> AtomOk(Written(ms)[k])
    decreases ms, 0
  {
    hide Atom;
    if ms != [] {
      FormIsAtom(ms[0].form);
      MetasAreAtoms(ms[1..]);
    }
  }

  lemma CountList(t: string, conditional: bool, inner: string, parts: seq<string>)
    requires ParseList(t) == Some(List(conditional, inner)) && Arguments(inner) == parts
    ensures conditional ==> MetaCount(t) == MetasCount(parts[1..])
    ensures !conditional ==> MetaCount(t) == if exists k :: 0 <= k < |parts| && DebtLint(parts[k]) then 1 else 0
  {
    hide ParseList, Arguments, DebtLint;
  }

  lemma CountListText(head: Head, parts: seq<Spaced>)
    requires head.Valid(KEYWORDS) && parts != [] && forall k :: 0 <= k < |parts| ==> AtomOk(parts[k])
    ensures head.keyword == "cfg_attr" ==> MetaCount(ListText(head, parts)) == MetasCount(Texts(parts)[1..])
    ensures head.keyword != "cfg_attr" ==>
      MetaCount(ListText(head, parts)) == if exists k :: 0 <= k < |parts| && DebtLint(parts[k].text) then 1 else 0
  {
    hide ParseList, Balanced, Squared, Join, Arguments, MetaCount, DebtLint, ListText;
    ListForm(head, parts);
    SplitJoin(parts);
    CountList(ListText(head, parts), head.keyword == "cfg_attr", Join(Wholes(parts), ","), Texts(parts));
    assert forall k :: 0 <= k < |parts| ==> Texts(parts)[k] == parts[k].text;
  }

  /** Counting a written attribute gives the debt it was written with. */
  lemma {:induction false} CountMatchesMeaning(f: Form)
    requires ValidForm(f)
    ensures MetaCount(FormText(f)) == Debt(f)
    decreases f, 2
  {
    hide Atom, ParseList, Join, DebtLint, ListText;
    match f
    case Lints(head, names) =>
      CountListText(head, names);
    case Conditional(head, condition, inner) =>
      MetasAreAtoms(inner);
      var parts := [condition] + Written(inner);
      CountListText(head, parts);
      assert Texts(parts)[1..] == Texts(Written(inner));
      CountMatchesMeanings(inner);
    case Other(_) =>
  }

  lemma {:induction false} CountMatchesMeanings(ms: seq<Meta>)
    requires ValidMetas(ms)
    ensures MetasCount(Texts(Written(ms))) == Debts(ms)
    decreases ms, 0
  {
    hide MetaCount, FormText, Debt, ValidForm;
    if ms != [] {
      CountMatchesMeaning(ms[0].form);
      CountMatchesMeanings(ms[1..]);
      assert Texts(Written(ms)) == [FormText(ms[0].form)] + Texts(Written(ms[1..]));
    }
  }

  lemma {:induction false} BracketPassOver(code: string, i: nat, a: string, tail: string, depth: nat, base: nat)
    requires i <= |code| && code[i..] == a + tail && Squared(a, depth) && base > 0
    ensures i + |a| <= |code|
    ensures BracketEnd(code, i, depth + base) == BracketEnd(code, i + |a|, base)
    decreases |a|
  {
    assert |code[i..]| == |a| + |tail|;
    if a != "" {
      assert code[i] == code[i..][0] == a[0];
      assert code[i + 1..] == code[i..][1..] == a[1..] + tail;
      BracketStep(code, i, depth + base);
      BracketPassOver(code, i + 1, a[1..], tail,
        if a[0] == '[' then depth + 1 else if a[0] == ']' then depth - 1 else depth, base);
    }
  }

  /** Where no attribute opens, the search goes on. */
  lemma {:induction false} SkipCode(code: string, offset: nat, k: nat)
    requires offset <= k <= |code| && forall j :: offset <= j < k ==> AttributeOpen(code, j).None?
    ensures NextAttribute(code, offset) == NextAttribute(code, k)
    decreases k - offset
  {
    if offset < k { SkipCode(code, offset + 1, k); }
  }

  lemma AttributeSpan(code: string, start: nat, body: string, rest: string)
    requires start <= |code| && code[start..] == body + ("]" + rest) && Squared(body, 0)
    ensures var end := start + |body|;
      end < |code| && code[start..end] == body && BracketEnd(code, start, 1) == Some(end + 1)
  {
    hide Squared, BracketEnd;
    var end := start + |body|;
    Split(code, start, body, "]" + rest);
    Split(code, end, "]", rest);
    assert code[end + 0] == ']';
    BracketPassOver(code, start, body, "]" + rest, 0, 1);
    BracketStep(code, end, 1);
    BracketStep(code, end + 1, 0);
  }

  /** The opening of an attribute as written, with white space after each sign. */
  datatype Opening = Outer(gap: string) | Inner(gap: string, second: string) {
    function Text(): string {
      if Outer? then "#" + gap + "[" else "#" + gap + "!" + second + "["
    }

    predicate Valid() {
      AllSpace(gap) && (Inner? ==> AllSpace(second))
    }
  }

  /** One written attribute adds its debt wherever it stands, and counting goes on right after it. */
  lemma AttributeAddsDebt(code: string, offset: nat, o: Opening, m: Meta, rest: string)
    requires o.Valid() && ValidMeta(m)
    requires offset <= |code| && code[offset..] == o.Text() + (MetaText(m) + ("]" + rest))
    ensures CountFrom(code, offset) == Debt(m.form) + CountFrom(code, |code| - |rest|)
  {
    hide *;
    var body := MetaText(m);
    var start := offset + |o.Text()|;
    AttributeOpens(code, offset, o, body + ("]" + rest));
    Split(code, offset, o.Text(), body + ("]" + rest));
    MetaShape(m);
    AttributeSpan(code, start, body, rest);
    CountStep(code, offset);
    CountsForm(m);
  }

  lemma CountsForm(m: Meta)
    requires ValidMeta(m)
    ensures MetaCount(FormText(m.form)) == Debt(m.form)
  {
    CountMatchesMeaning(m.form);
  }

  lemma MetaShape(m: Meta)
    requires ValidMeta(m)
    ensures Squared(MetaText(m), 0) && Strip(MetaText(m)) == FormText(m.form)
  {
    hide FormText, Squared, Strip;
    FormIsAtom(m.form);
    SquaredPadded(Spaced(m.before, FormText(m.form), m.after));
    StripPadded(m.before, FormText(m.form), m.after);
  }

  lemma AttributeOpens(code: string, offset: nat, o: Opening, tail: string)
    requires offset <= |code| && code[offset..] == o.Text() + tail && o.Valid()
    ensures NextAttribute(code, offset) == Some(offset + |o.Text()|)
  {
    hide AttributeOpen;
    var text := o.Text();
    assert |code[offset..]| == |text| + |tail|;
    match o
    case Outer(gap) =>
      assert text + tail == "#" + (gap + ("[" + tail));
      OpensOuter(code, offset, gap, tail);
    case Inner(gap, second) =>
      assert text + tail == "#" + (gap + ("!" + (second + ("[" + tail))));
      OpensInner(code, offset, gap, second, tail);
  }

  lemma OpensOuter(code: string, k: nat, gap: string, tail: string)
    requires k < |code| && code[k..] == "#" + (gap + ("[" + tail)) && AllSpace(gap)
    ensures AttributeOpen(code, k) == Some(k + 2 + |gap|)
  {
    hide SpaceRun;
    Split(code, k, "#", gap + ("[" + tail));
    assert code[k + 0] == '#';
    SpaceRunOver(code, k + 1, gap, "[" + tail);
  }

  lemma OpensInner(code: string, k: nat, gap: string, second: string, tail: string)
    requires k < |code| && code[k..] == "#" + (gap + ("!" + (second + ("[" + tail))))
    requires AllSpace(gap) && AllSpace(second)
    ensures AttributeOpen(code, k) == Some(k + 3 + |gap| + |second|)
  {
    hide SpaceRun;
    var last := second + ("[" + tail);
    Split(code, k, "#", gap + ("!" + last));
    assert code[k + 0] == '#';
    SpaceRunOver(code, k + 1, gap, "!" + last);
    Split(code, k + 1, gap, "!" + last);
    Split(code, k + 1 + |gap|, "!", last);
    SpaceRunOver(code, k + 2 + |gap|, second, "[" + tail);
  }

  // ----- a whole file as written -----

  /** A file as its author wrote it: stretches of code and attributes. */
  datatype Item = Code(text: string) | Attribute(opening: Opening, meta: Meta)

  function ItemText(i: Item): string {
    match i
    case Code(text) => text
    case Attribute(opening, meta) => opening.Text() + (MetaText(meta) + "]")
  }

  function FileText(items: seq<Item>): string {
    if items == [] then "" else ItemText(items[0]) + FileText(items[1..])
  }

  function FileDebt(items: seq<Item>): nat {
    if items == [] then 0
    else (if items[0].Attribute? then Debt(items[0].meta.form) else 0) + FileDebt(items[1..])
  }

  /** Attributes are well formed, and none opens inside a stretch of code or across its end. */
  ghost predicate WellWritten(items: seq<Item>) {
    items != [] ==>
      match items[0]
      case Code(text) => Inert(text, FileText(items[1..])) && WellWritten(items[1..])
      case Attribute(opening, meta) => opening.Valid() && ValidMeta(meta) && WellWritten(items[1..])
  }

  ghost predicate Inert(text: string, after: string) {
    forall k :: 0 <= k < |text| ==> AttributeOpen(text + after, k).None?
  }

  lemma {:induction false} SpaceRunSuffix(s: string, i: nat, k: nat)
    requires i + k <= |s|
    ensures SpaceRun(s, i + k) == i + SpaceRun(s[i..], k)
    decreases |s| - i - k
  {
    if i + k < |s| {
      assert s[i + k] == s[i..][k];
      SpaceRunSuffix(s, i, k + 1);
    }
  }

  /** What an attribute opening needs from position p on, past the number sign and its spaces. */
  predicate OpensAt(code: string, p: nat)
    requires p <= |code|
  {
    var q := if p < |code| && code[p] == '!' then SpaceRun(code, p + 1) else p;
    q < |code| && code[q] == '['
  }

  lemma OpensAtSuffix(s: string, i: nat, p: nat)
    requires i + p <= |s|
    ensures OpensAt(s, i + p) <==> OpensAt(s[i..], p)
  {
    hide SpaceRun;
    var t := s[i..];
    if p < |t| {
      assert s[i + p] == t[p];
      SpaceRunSuffix(s, i, p + 1);
      var q := SpaceRun(t, p + 1);
      if q < |t| { assert s[i + q] == t[q]; }
    }
  }

  lemma OpenByParts(code: string, k: nat)
    requires k < |code|
    ensures AttributeOpen(code, k).Some? <==> code[k] == '#' && OpensAt(code, SpaceRun(code, k + 1))
  {
    hide SpaceRun;
  }

  lemma OpenSuffix(s: string, i: nat, k: nat)
    requires i + k < |s|
    ensures AttributeOpen(s, i + k).None? <==> AttributeOpen(s[i..], k).None?
  {
    hide SpaceRun, OpensAt, AttributeOpen;
    var t := s[i..];
    assert s[i + k] == t[k];
    OpenByParts(s, i + k);
    OpenByParts(t, k);
    SpaceRunSuffix(s, i, k + 1);
    OpensAtSuffix(s, i, SpaceRun(t, k + 1));
  }

  lemma CountFromNext(code: string, a: nat, b: nat)
    requires a <= |code| && b <= |code| && NextAttribute(code, a) == NextAttribute(code, b)
    ensures CountFrom(code, a) == CountFrom(code, b)
  {
    hide *;
    CountStep(code, a);
    CountStep(code, b);
  }

  lemma CountsCode(code: string, offset: nat, text: string, rest: string)
    requires offset <= |code| && code[offset..] == text + rest && Inert(text, rest)
    ensures offset + |text| <= |code| && code[offset + |text|..] == rest
    ensures CountFrom(code, offset) == CountFrom(code, offset + |text|)
  {
    hide CountFrom, AttributeOpen, NextAttribute;
    var k := offset + |text|;
    Split(code, offset, text, rest);
    forall j | offset <= j < k ensures AttributeOpen(code, j).None? { OpenSuffix(code, offset, j - offset); }
    SkipCode(code, offset, k);
    CountFromNext(code, offset, k);
  }

  lemma CountsAttribute(code: string, offset: nat, o: Opening, meta: Meta, rest: string)
    requires offset <= |code| && code[offset..] == ItemText(Attribute(o, meta)) + rest && o.Valid() && ValidMeta(meta)
    ensures var k := offset + |ItemText(Attribute(o, meta))|;
      k <= |code| && code[k..] == rest && CountFrom(code, offset) == Debt(meta.form) + CountFrom(code, k)
  {
    hide CountFrom, MetaText, Debt, ValidMeta;
    var text := ItemText(Attribute(o, meta));
    assert text + rest == o.Text() + (MetaText(meta) + ("]" + rest));
    AttributeAddsDebt(code, offset, o, meta, rest);
    Split(code, offset, text, rest);
  }

  lemma {:induction false} CountsFile(code: string, offset: nat, items: seq<Item>)
    requires offset <= |code| && code[offset..] == FileText(items) && WellWritten(items)
    ensures CountFrom(code, offset) == FileDebt(items)
    decreases |items|
  {
    hide CountFrom, Debt, ValidMeta, Inert;
    if items == [] {
      NothingFollows(code, offset);
    } else {
      var rest := FileText(items[1..]);
      match items[0]
      case Code(text) =>
        CountsCode(code, offset, text, rest);
        CountsFile(code, offset + |text|, items[1..]);
      case Attribute(o, meta) =>
        hide ItemText;
        CountsAttribute(code, offset, o, meta, rest);
        CountsFile(code, offset + |ItemText(items[0])|, items[1..]);
    }
  }

  lemma NothingFollows(code: string, offset: nat)
    requires offset <= |code| && code[offset..] == ""
    ensures CountFrom(code, offset) == 0
  {
    assert offset == |code|;
  }

  /**
   The debt of a file is the sum of the debts of its attributes; comments and literals may stand
   anywhere in its code.
   */
  lemma FileDebtAddsUp(text: string, items: seq<Item>)
    requires Mask(text, 0) == FileText(items) && WellWritten(items)
    ensures LintDebt(text) == FileDebt(items)
  {
    hide CountFrom, WellWritten, FileText, FileDebt, Mask;
    var code := Mask(text, 0);
    assert code[0..] == code;
    CountsFile(code, 0, items);
  }

  // ----- every file is written this way -----

  function Closer(c: char): char {
    if c == '(' then ')' else if c == '[' then ']' else '}'
  }

  /** Groups close in order and each by its own kind, with the brackets in `open` still to come. */
  predicate Nests(a: string, open: string) {
    if a == "" then open == ""
    else if Opens(a[0]) then Nests(a[1..], [Closer(a[0])] + open)
    else if Closes(a[0]) then open != "" && open[0] == a[0] && Nests(a[1..], open[1..])
    else Nests(a[1..], open)
  }

  function Squares(open: string): nat {
    if open == "" then 0 else (if open[0] == ']' then 1 else 0) + Squares(open[1..])
  }

  lemma {:induction false} NestsSquared(a: string, open: string)
    requires Nests(a, open)
    ensures Squared(a, Squares(open))
    decreases |a|
  {
    if a != "" {
      if Opens(a[0]) {
        var more := [Closer(a[0])] + open;
        assert more[1..] == open;
        NestsSquared(a[1..], more);
      } else if Closes(a[0]) {
        NestsSquared(a[1..], open[1..]);
      } else {
        NestsSquared(a[1..], open);
      }
    }
  }

  lemma {:induction false} NestsAfterSpace(b: string, a: string, open: string)
    requires AllSpace(b)
    ensures Nests(b + a, open) <==> Nests(a, open)
    decreases |b|
  {
    if b == "" {
      assert b + a == a;
    } else {
      assert IsSpace(b[0]) && (b + a)[0] == b[0] && (b + a)[1..] == b[1..] + a;
      NestsAfterSpace(b[1..], a, open);
    }
  }

  lemma {:induction false} NestsBeforeSpace(a: string, b: string, open: string)
    requires AllSpace(b)
    ensures Nests(a + b, open) <==> Nests(a, open)
    decreases |a|
  {
    if a == "" {
      assert a + b == b + "";
      NestsAfterSpace(b, "", open);
    } else {
      assert (a + b)[0] == a[0] && (a + b)[1..] == a[1..] + b;
      if Opens(a[0]) {
        NestsBeforeSpace(a[1..], b, [Closer(a[0])] + open);
      } else if Closes(a[0]) {
        if open != "" { NestsBeforeSpace(a[1..], b, open[1..]); }
      } else {
        NestsBeforeSpace(a[1..], b, open);
      }
    }
  }

  /** Nested text up to its first comma outside the groups, and what follows the comma. */
  lemma {:induction false} FirstPiece(a: string, open: string) returns (n: nat)
    requires Nests(a, open)
    ensures n <= |a| && Nests(a[..n], open) && Balanced(a[..n], |open|)
    ensures n < |a| ==> a[n] == ',' && Nests(a[n + 1..], "")
    decreases |a|
  {
    if a == "" || (a[0] == ',' && open == "") {
      n := 0;
    } else {
      var rest := if Opens(a[0]) then [Closer(a[0])] + open else if Closes(a[0]) then open[1..] else open;
      var m := FirstPiece(a[1..], rest);
      n := m + 1;
      assert a[..n][0] == a[0] && a[..n][1..] == a[1..][..m];
      assert n < |a| ==> a[n] == a[1..][m] && a[n + 1..] == a[1..][m + 1..];
    }
  }

  /** A nested piece without commas outside its groups is an atom with white space around it. */
  lemma PieceIsSpaced(w: string) returns (a: Spaced)
    requires Nests(w, "") && Balanced(w, 0)
    ensures a.Whole() == w && AtomOk(a) && Nests(a.text, "")
  {
    hide Nests, Balanced, Squared, Strip;
    var l, r := StripParts(w);
    a := Spaced(l, Strip(w), r);
    BalancedPadded(a, 0);
    NestsBeforeSpace(l + a.text, r, "");
    NestsAfterSpace(l, a.text, "");
    SquaredOf(a.text);
  }

  lemma SquaredOf(a: string)
    requires Nests(a, "")
    ensures Squared(a, 0)
  {
    NestsSquared(a, "");
  }

  /** Every nested list is the comma join of atoms with white space around them. */
  lemma {:induction false} EveryList(inner: string) returns (parts: seq<Spaced>)
    requires Nests(inner, "")
    ensures parts != [] && Join(Wholes(parts), ",") == inner
    ensures forall k :: 0 <= k < |parts| ==> AtomOk(parts[k]) && Nests(parts[k].text, "")
    decreases |inner|
  {
    hide Nests, AtomOk, Balanced;
    var n := FirstPiece(inner, "");
    var first := PieceIsSpaced(inner[..n]);
    if n == |inner| {
      parts := [first];
      assert inner[..n] == inner;
    } else {
      var rest := EveryList(inner[n + 1..]);
      parts := [first] + rest;
      assert Wholes(parts)[1..] == Wholes(rest);
      assert inner == inner[..n] + "," + inner[n + 1..];
    }
  }

  /** Lists nest all the way down: the parentheses of each list close at its end. */
  ghost predicate Nested(meta: string)
    decreases |meta|, 0
  {
    && Nests(meta, "")
    && (ParseList(meta).Some? ==>
          var list := ParseList(meta).value;
          Nests(list.inner, "") && (list.conditional ==> AllNested(Arguments(list.inner)[1..])))
  }

  ghost predicate AllNested(metas: seq<string>)
    decreases Weight(metas), 1
  {
    metas == [] || (Nested(metas[0]) && AllNested(metas[1..]))
  }

  lemma KeywordWritten(s: string)
    requires Keyword(s) > 0
    ensures var w := s[..Keyword(s)]; w in KEYWORDS && (w == "cfg_attr" <==> Keyword(s) == 8)
  {
  }

  lemma UnrawWritten(meta: string)
    ensures meta == (if StartsWith(meta, "r#") then "r#" else "") + Unraw(meta)
  {
  }

  lemma GroupWritten(s: string, n: nat, p: nat)
    requires n <= p < |s| - 1 && s[p] == '(' && s[|s| - 1] == ')'
    ensures s == s[..n] + s[n..p] + ("(" + s[p + 1..|s| - 1] + ")")
  {
    assert s == s[..n] + s[n..p] + s[p..p + 1] + s[p + 1..|s| - 1] + s[|s| - 1..];
    assert s[p..p + 1] == "(" && s[|s| - 1..] == ")";
  }

  /** What parses as a list is a written head and its parentheses. */
  lemma ListHead(meta: string) returns (head: Head)
    requires ParseList(meta).Some?
    ensures head.Valid(KEYWORDS) && meta == head.Text() + "(" + ParseList(meta).value.inner + ")"
    ensures head.keyword == "cfg_attr" <==> ParseList(meta).value.conditional
  {
    hide SpaceRun, Keyword, Unraw, IsSpace, StartsWith;
    var s := Unraw(meta);
    var n := Keyword(s);
    var p := SpaceRun(s, n);
    head := Head(StartsWith(meta, "r#"), s[..n], s[n..p]);
    KeywordWritten(s);
    UnrawWritten(meta);
    GroupWritten(s, n, p);
    var group := "(" + s[p + 1..|s| - 1] + ")";
    HeadGroup(head, group, s);
    assert head.Text() + group == head.Text() + "(" + s[p + 1..|s| - 1] + ")";
  }

  lemma HeadGroup(head: Head, group: string, s: string)
    requires s == head.keyword + head.gap + group
    ensures (if head.raw then "r#" else "") + s == head.Text() + group
  {
  }

  /** Every nested attribute text is the writing of a form. */
  lemma {:induction false} EveryMeta(meta: string) returns (f: Form)
    requires Nested(meta) && Atom(meta)
    ensures ValidForm(f) && FormText(f) == meta
    decreases |meta|, 0
  {
    hide Nests, Atom, AtomOk, ParseList, Arguments, Join;
    if ParseList(meta).None? {
      f := Other(meta);
    } else {
      var list := ParseList(meta).value;
      var head := ListHead(meta);
      var parts := EveryList(list.inner);
      if !list.conditional {
        f := Lints(head, parts);
      } else {
        AtomsSplit(parts);
        assert Texts(parts)[1..] == Texts(parts[1..]);
        var inner := EveryMetas(parts[1..]);
        f := Conditional(head, parts[0], inner);
        assert [parts[0]] + parts[1..] == parts;
      }
    }
  }

  lemma AtomsSplit(parts: seq<Spaced>)
    requires parts != [] && forall k :: 0 <= k < |parts| ==> AtomOk(parts[k])
    ensures Arguments(Join(Wholes(parts), ",")) == Texts(parts)
  {
    SplitJoin(parts);
  }

  lemma {:induction false} EveryMetas(parts: seq<Spaced>) returns (ms: seq<Meta>)
    requires AllNested(Texts(parts)) && forall k :: 0 <= k < |parts| ==> AtomOk(parts[k])
    ensures ValidMetas(ms) && Written(ms) == parts
    decreases Weight(Texts(parts)), 1
  {
    hide Nested, ValidForm, FormText;
    if parts == [] {
      ms := [];
    } else {
      assert Texts(parts)[1..] == Texts(parts[1..]);
      var f := EveryMeta(parts[0].text);
      var rest := EveryMetas(parts[1..]);
      ms := [Meta(parts[0].before, f, parts[0].after)] + rest;
      assert ms[1..] == rest && parts == [parts[0]] + parts[1..];
    }
  }

  /** Every attribute of the code closes, and its text nests and has no comma outside its groups. */
  ghost predicate Attributed(code: string)
    decreases |code|
  {
    match NextAttribute(code, 0)
    case None => true
    case Some(start) =>
      match BracketEnd(code, start, 1)
      case None => false
      case Some(end) =>
        var body := Strip(code[start..end - 1]);
        Nested(body) && Balanced(body, 0) && Attributed(code[end..])
  }

  lemma {:induction false} AttributeFound(code: string, offset: nat) returns (k: nat)
    requires offset <= |code| && NextAttribute(code, offset).Some?
    ensures offset <= k < |code| && AttributeOpen(code, k) == NextAttribute(code, offset)
    ensures forall j :: offset <= j < k ==> AttributeOpen(code, j).None?
    decreases |code| - offset
  {
    hide AttributeOpen;
    if AttributeOpen(code, offset).Some? {
      k := offset;
    } else {
      k := AttributeFound(code, offset + 1);
    }
  }

  lemma {:induction false} NoAttribute(code: string, offset: nat)
    requires offset <= |code| && NextAttribute(code, offset).None?
    ensures forall j :: offset <= j < |code| ==> AttributeOpen(code, j).None?
    decreases |code| - offset
  {
    hide AttributeOpen;
    if offset < |code| { NoAttribute(code, offset + 1); }
  }

  /** What opens an attribute is a written opening. */
  lemma OpeningWritten(code: string, k: nat) returns (o: Opening)
    requires k < |code| && AttributeOpen(code, k).Some?
    ensures o.Valid() && code[k..AttributeOpen(code, k).value] == o.Text()
  {
    hide SpaceRun, IsSpace;
    var p := SpaceRun(code, k + 1);
    if code[p] == '!' {
      var q := SpaceRun(code, p + 1);
      o := Inner(code[k + 1..p], code[p + 1..q]);
      assert code[k..q + 1] == [code[k]] + code[k + 1..p] + [code[p]] + code[p + 1..q] + [code[q]];
    } else {
      o := Outer(code[k + 1..p]);
      assert code[k..p + 1] == [code[k]] + code[k + 1..p] + [code[p]];
    }
  }

  lemma {:induction false} BracketCloses(code: string, i: nat, depth: nat)
    requires i <= |code| && depth > 0 && BracketEnd(code, i, depth).Some?
    ensures var end := BracketEnd(code, i, depth).value;
      i < end && code[end - 1] == ']' && Squared(code[i..end - 1], depth - 1)
    decreases |code| - i
  {
    hide BracketEnd;
    BracketStep(code, i, depth);
    var end := BracketEnd(code, i, depth).value;
    var next := if code[i] == '[' then depth + 1 else if code[i] == ']' then depth - 1 else depth;
    BracketStep(code, i + 1, next);
    if next == 0 {
      assert code[i..end - 1] == "";
    } else {
      BracketCloses(code, i + 1, next);
      assert code[i..end - 1][0] == code[i] && code[i..end - 1][1..] == code[i + 1..end - 1];
    }
  }

  /** A file whose attributes are nested is code and attributes as written, so the sum is over all of it. */
  lemma {:induction false} EveryFile(code: string) returns (items: seq<Item>)
    requires Attributed(code)
    ensures FileText(items) == code && WellWritten(items)
    decreases |code|
  {
    hide AttributeOpen, NextAttribute, BracketEnd, Nested, Balanced, Strip, ValidMeta, ItemText, WellWritten, FileText;
    if NextAttribute(code, 0).None? {
      NoAttribute(code, 0);
      items := [Code(code)] + [];
      NoItems(code);
    } else {
      var start := NextAttribute(code, 0).value;
      var end := BracketEnd(code, start, 1).value;
      var k := AttributeFound(code, 0);
      var a := AttributeWritten(code, k, start, end);
      var rest := EveryFile(code[end..]);
      items := [Code(code[..k])] + ([a] + rest);
      PrependAttribute(a, rest, code[k..end], code[end..]);
      assert code[k..] == code[k..end] + code[end..];
      PrependCode(code, k, [a] + rest);
    }
  }

  lemma NoItems(code: string)
    requires forall j :: 0 <= j < |code| ==> AttributeOpen(code, j).None?
    ensures FileText([Code(code)] + []) == code && WellWritten([Code(code)] + [])
  {
    hide AttributeOpen;
    assert ([Code(code)] + [])[1..] == [];
    assert code + "" == code;
  }

  lemma PrependAttribute(a: Item, rest: seq<Item>, text: string, after: string)
    requires a.Attribute? && a.opening.Valid() && ValidMeta(a.meta) && ItemText(a) == text
    requires FileText(rest) == after && WellWritten(rest)
    ensures FileText([a] + rest) == text + after && WellWritten([a] + rest)
  {
    hide ItemText, ValidMeta;
    assert ([a] + rest)[1..] == rest;
  }

  lemma PrependCode(code: string, k: nat, rest: seq<Item>)
    requires k <= |code| && FileText(rest) == code[k..] && WellWritten(rest)
    requires forall j :: 0 <= j < k ==> AttributeOpen(code, j).None?
    ensures var items := [Code(code[..k])] + rest; FileText(items) == code && WellWritten(items)
  {
    hide AttributeOpen;
    assert ([Code(code[..k])] + rest)[1..] == rest;
    assert code[..k] + code[k..] == code;
  }

  lemma AttributeWritten(code: string, k: nat, start: nat, end: nat) returns (a: Item)
    requires k < |code| && AttributeOpen(code, k) == Some(start) && BracketEnd(code, start, 1) == Some(end)
    requires var body := Strip(code[start..end - 1]); Nested(body) && Balanced(body, 0)
    ensures a.Attribute? && a.opening.Valid() && ValidMeta(a.meta) && ItemText(a) == code[k..end]
  {
    hide AttributeOpen, BracketEnd, Nested, Balanced, Strip, ValidForm, FormText, Squared;
    BracketCloses(code, start, 1);
    var o := OpeningWritten(code, k);
    var body := code[start..end - 1];
    var l, r := StripParts(body);
    NestedSquared(Strip(body));
    var f := EveryMeta(Strip(body));
    a := Attribute(o, Meta(l, f, r));
    AttributeParts(code, k, start, end);
  }

  lemma AttributeParts(code: string, k: nat, start: nat, end: nat)
    requires k <= start < end <= |code| && code[end - 1] == ']'
    ensures code[k..end] == code[k..start] + (code[start..end - 1] + "]")
  {
    assert code[start..end] == code[start..end - 1] + "]";
    assert code[k..end] == code[k..start] + code[start..end];
  }

  lemma NestedSquared(a: string)
    requires Nested(a)
    ensures Squared(a, 0)
  {
    SquaredOf(a);
  }
}
