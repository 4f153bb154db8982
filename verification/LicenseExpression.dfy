/**
 The license expression assessment: a tokenizer, a bounded pre-scan, and a recursive descent
 parser that keeps the strongest family and whether anything needs review.
 */
module LicenseExpression {
  import opened Prelude
  import opened Text

  datatype Category = Unknown | Proprietary | Permissive | Copyleft | StrongCopyleft {
    function Rank(): nat {
      match this
      case Unknown => 0
      case Proprietary => 1
      case Permissive => 2
      case Copyleft => 3
      case StrongCopyleft => 4
    }
  }

  datatype Assessment = Assessment(category: Category, unresolved: bool)

  /** Both sides count, so the strongest family and any open question are kept. */
  function Combine(a: Assessment, b: Assessment): (c: Assessment)
    ensures c.category.Rank() == Max(a.category.Rank(), b.category.Rank())
    ensures c.unresolved <==> a.unresolved || b.unresolved
  {
    Assessment(if a.category.Rank() < b.category.Rank() then b.category else a.category, a.unresolved || b.unresolved)
  }

  lemma CombineAssociative(a: Assessment, b: Assessment, c: Assessment)
    ensures Combine(Combine(a, b), c) == Combine(a, Combine(b, c))
  {
  }

  type Families = string -> Category

  // ----- expressions -----

  datatype Token = Open | Close | And | Or | With | Word(text: string)

  datatype Operator = AndOperator | OrOperator | Beside {
    function Tokens(): seq<Token> {
      match this
      case AndOperator => [And]
      case OrOperator => [Or]
      case Beside => []
    }
  }

  datatype Atom = License(id: string, exception_: Option<string>) | Group(chain: Chain)

  datatype Chain = Last(atom: Atom) | More(atom: Atom, operator: Operator, rest: Chain)

  function AtomTokens(a: Atom): (ts: seq<Token>)
    ensures ts != [] && (ts[0].Word? || ts[0].Open?)
  {
    match a
    case License(id, None) => [Word(id)]
    case License(id, Some(e)) => [Word(id), With, Word(e)]
    case Group(chain) => [Open] + ChainTokens(chain) + [Close]
  }

  function ChainTokens(c: Chain): (ts: seq<Token>)
    ensures ts != [] && (ts[0].Word? || ts[0].Open?)
  {
    match c
    case Last(a) => AtomTokens(a)
    case More(a, op, rest) => AtomTokens(a) + (op.Tokens() + ChainTokens(rest))
  }

  /** The identifier without a trailing plus. */
  function Base(id: string): string {
    if id != "" && id[|id| - 1] == '+' then id[..|id| - 1] else id
  }

  function LicenseMeaning(families: Families, id: string, hasException: bool): Assessment {
    var category := families(Base(id));
    Assessment(category, hasException || category == Unknown)
  }

  function AtomMeaning(families: Families, a: Atom): Assessment {
    match a
    case License(id, e) => LicenseMeaning(families, id, e.Some?)
    case Group(chain) => ChainMeaning(families, chain)
  }

  function ChainMeaning(families: Families, c: Chain): Assessment {
    match c
    case Last(a) => AtomMeaning(families, a)
    case More(a, _, rest) => Combine(AtomMeaning(families, a), ChainMeaning(families, rest))
  }

  // ----- the parser -----

  datatype Failure = MissingOperand | MissingClose | InvalidOperand | MissingException | TrailingToken

  datatype Parsed = Parsed(meaning: Assessment, position: nat)

  type ParseResult = Result<Parsed, Failure>

  function ParseAtom(f: Families, ts: seq<Token>, p: nat): (r: ParseResult)
    requires p <= |ts|
    ensures r.Ok? ==> p < r.value.position <= |ts|
    decreases |ts| - p, 0
  {
    if p == |ts| then Err(MissingOperand)
    else
      match ts[p]
      case Open =>
        var inner :- ParseChain(f, ts, p + 1);
        if inner.position < |ts| && ts[inner.position] == Close
        then Ok(Parsed(inner.meaning, inner.position + 1))
        else Err(MissingClose)
      case Word(id) =>
        if p + 1 < |ts| && ts[p + 1] == With then
          if p + 2 < |ts| && ts[p + 2].Word? then Ok(Parsed(LicenseMeaning(f, id, true), p + 3))
          else Err(MissingException)
        else Ok(Parsed(LicenseMeaning(f, id, false), p + 1))
      case _ => Err(InvalidOperand)
  }

  function ParseChain(f: Families, ts: seq<Token>, p: nat): (r: ParseResult)
    requires p <= |ts|
    ensures r.Ok? ==> p < r.value.position <= |ts|
    ensures r.Ok? ==> r.value.position == |ts| || ts[r.value.position] == Close
    decreases |ts| - p, 1
  {
    var first :- ParseAtom(f, ts, p);
    ParseRest(f, ts, first.position, first.meaning)
  }

  function ParseRest(f: Families, ts: seq<Token>, p: nat, sofar: Assessment): (r: ParseResult)
    requires p <= |ts|
    ensures r.Ok? ==> p <= r.value.position <= |ts|
    ensures r.Ok? ==> r.value.position == |ts| || ts[r.value.position] == Close
    decreases |ts| - p, 1
  {
    if p == |ts| || ts[p] == Close then Ok(Parsed(sofar, p))
    else
      var q := if ts[p] == And || ts[p] == Or then p + 1 else p;
      var right :- ParseAtom(f, ts, q);
      ParseRest(f, ts, right.position, Combine(sofar, right.meaning))
  }

  function Parse(f: Families, ts: seq<Token>): Result<Assessment, Failure> {
    var top :- ParseChain(f, ts, 0);
    if top.position == |ts| then Ok(top.meaning) else Err(TrailingToken)
  }

  /** The parser as written: one shared position that the mutually recursive methods advance. */
  class Parser {
    const families: Families
    const tokens: seq<Token>
    var position: nat

    constructor (f: Families, ts: seq<Token>)
      ensures families == f && tokens == ts && position == 0
    {
      families, tokens, position := f, ts, 0;
    }

    method ReadAtom() returns (r: Result<Assessment, Failure>)
      requires position <= |tokens|
      modifies this
      ensures position <= |tokens|
      ensures match ParseAtom(families, tokens, old(position))
        case Ok(parsed) => r == Ok(parsed.meaning) && position == parsed.position
        case Err(e) => r == Err(e)
      decreases |tokens| - position, 0
    {
      if position == |tokens| { return Err(MissingOperand); }
      var token := tokens[position];
      position := position + 1;
      if token == Open {
        r := ReadChain();
        if r.Err? { return; }
        if !(position < |tokens| && tokens[position] == Close) { return Err(MissingClose); }
        position := position + 1;
        return;
      }
      if !token.Word? { return Err(InvalidOperand); }
      var hasException := position < |tokens| && tokens[position] == With;
      if hasException {
        position := position + 1;
        if !(position < |tokens| && tokens[position].Word?) { return Err(MissingException); }
        position := position + 1;
      }
      return Ok(LicenseMeaning(families, token.text, hasException));
    }

    method ReadChain() returns (r: Result<Assessment, Failure>)
      requires position <= |tokens|
      modifies this
      ensures position <= |tokens|
      ensures match ParseChain(families, tokens, old(position))
        case Ok(parsed) => r == Ok(parsed.meaning) && position == parsed.position
        case Err(e) => r == Err(e)
      decreases |tokens| - position, 1
    {
      ghost var start := position;
      r := ReadAtom();
      if r.Err? { return; }
      var sofar := r.value;
      while position < |tokens| && tokens[position] != Close
        invariant start < position <= |tokens|
        invariant ParseChain(families, tokens, start) == ParseRest(families, tokens, position, sofar)
        decreases |tokens| - position
      {
        ghost var before := position;
        if tokens[position] == And || tokens[position] == Or {
          position := position + 1;
        }
        r := ReadAtom();
        if r.Err? { return; }
        sofar := Combine(sofar, r.value);
      }
      return Ok(sofar);
    }

    method ReadAll() returns (r: Result<Assessment, Failure>)
      requires position == 0
      modifies this
      ensures r == Parse(families, tokens)
      ensures r.Ok? ==> Says(families, tokens, r.value)
    {
      if Parse(families, tokens).Ok? { ParsedSays(families, tokens); }
      hide Says;
      r := ReadChain();
      if r.Ok? && position != |tokens| { return Err(TrailingToken); }
    }
  }

  // ----- printing and parsing -----

  ghost predicate Spells(ts: seq<Token>, p: nat, part: seq<Token>) {
    p + |part| <= |ts| && forall k :: 0 <= k < |part| ==> ts[p + k] == part[k]
  }

  lemma SpellsSplit(ts: seq<Token>, p: nat, a: seq<Token>, b: seq<Token>)
    ensures Spells(ts, p, a + b) <==> Spells(ts, p, a) && Spells(ts, p + |a|, b)
  {
    if Spells(ts, p, a + b) {
      forall k | 0 <= k < |a| ensures ts[p + k] == a[k] { assert (a + b)[k] == a[k]; }
      forall k | 0 <= k < |b| ensures ts[p + |a| + k] == b[k] { assert (a + b)[|a| + k] == b[k]; }
    }
    if Spells(ts, p, a) && Spells(ts, p + |a|, b) {
      forall k | 0 <= k < |a + b| ensures ts[p + k] == (a + b)[k] {
        if k >= |a| { assert ts[p + |a| + (k - |a|)] == b[k - |a|]; }
      }
    }
  }

  lemma ChainStep(f: Families, ts: seq<Token>, p: nat, q: nat, m: Assessment)
    requires p <= |ts| && ParseAtom(f, ts, p) == Ok(Parsed(m, q))
    ensures q <= |ts| && ParseChain(f, ts, p) == ParseRest(f, ts, q, m)
  {
  }

  lemma RestStep(f: Families, ts: seq<Token>, p: nat, op: Operator, q: nat, m: Assessment, sofar: Assessment)
    requires p < |ts| && ts[p] != Close
    requires (if op == Beside then ts[p] != And && ts[p] != Or else ts[p] == op.Tokens()[0])
    requires p + |op.Tokens()| <= |ts| && ParseAtom(f, ts, p + |op.Tokens()|) == Ok(Parsed(m, q))
    ensures q <= |ts| && ParseRest(f, ts, p, sofar) == ParseRest(f, ts, q, Combine(sofar, m))
  {
  }

  lemma RestStop(f: Families, ts: seq<Token>, p: nat, sofar: Assessment)
    requires p <= |ts| && (p == |ts| || ts[p] == Close)
    ensures ParseRest(f, ts, p, sofar) == Ok(Parsed(sofar, p))
  {
  }

  lemma GroupStep(f: Families, ts: seq<Token>, p: nat, q: nat, m: Assessment)
    requires p < |ts| && ts[p] == Open && ParseChain(f, ts, p + 1) == Ok(Parsed(m, q))
    requires q < |ts| && ts[q] == Close
    ensures ParseAtom(f, ts, p) == Ok(Parsed(m, q + 1))
  {
  }

  /** A printed atom is read back with its meaning, if no exception clause follows it. */
  lemma {:induction false} ReadPrintedAtom(f: Families, ts: seq<Token>, p: nat, a: Atom)
    requires Spells(ts, p, AtomTokens(a))
    requires p + |AtomTokens(a)| == |ts| || ts[p + |AtomTokens(a)|] != With
    ensures ParseAtom(f, ts, p) == Ok(Parsed(AtomMeaning(f, a), p + |AtomTokens(a)|))
    decreases a, 0
  {
    match a
    case License(_, e) =>
      assert ts[p + 0] == AtomTokens(a)[0];
      assert e.Some? ==> ts[p + 1] == AtomTokens(a)[1] && ts[p + 2] == AtomTokens(a)[2];
    case Group(chain) =>
      hide ParseAtom, ParseChain;
      var inner := ChainTokens(chain);
      assert AtomTokens(a) == [Open] + (inner + [Close]);
      SpellsSplit(ts, p, [Open], inner + [Close]);
      SpellsSplit(ts, p + 1, inner, [Close]);
      assert ts[p + 0] == [Open][0] && ts[p + 1 + |inner| + 0] == [Close][0];
      ReadPrintedChain(f, ts, p + 1, chain);
      GroupStep(f, ts, p, p + 1 + |inner|, ChainMeaning(f, chain));
  }

  lemma {:induction false} ReadPrintedChain(f: Families, ts: seq<Token>, p: nat, c: Chain)
    requires Spells(ts, p, ChainTokens(c))
    requires p + |ChainTokens(c)| == |ts| || ts[p + |ChainTokens(c)|] == Close
    ensures ParseChain(f, ts, p) == Ok(Parsed(ChainMeaning(f, c), p + |ChainTokens(c)|))
    decreases c, 1
  {
    hide ParseAtom, ParseChain, ParseRest, AtomTokens, AtomMeaning;
    match c
    case Last(a) =>
      ReadPrintedAtom(f, ts, p, a);
      var q := p + |AtomTokens(a)|;
      ChainStep(f, ts, p, q, AtomMeaning(f, a));
      RestStop(f, ts, q, AtomMeaning(f, a));
    case More(a, op, rest) =>
      var first, tail := AtomTokens(a), op.Tokens() + ChainTokens(rest);
      SpellsSplit(ts, p, first, tail);
      assert tail[0] != With && ts[p + |first| + 0] == tail[0];
      ReadPrintedAtom(f, ts, p, a);
      ChainStep(f, ts, p, p + |first|, AtomMeaning(f, a));
      ReadPrintedRest(f, ts, p + |first|, op, rest, AtomMeaning(f, a));
  }

  lemma {:induction false} ReadPrintedRest(f: Families, ts: seq<Token>, p: nat, op: Operator, c: Chain,
      sofar: Assessment)
    requires Spells(ts, p, op.Tokens() + ChainTokens(c))
    requires var e := p + |op.Tokens() + ChainTokens(c)|; e == |ts| || ts[e] == Close
    ensures ParseRest(f, ts, p, sofar)
         == Ok(Parsed(Combine(sofar, ChainMeaning(f, c)), p + |op.Tokens() + ChainTokens(c)|))
    decreases c, 1
  {
    hide ParseAtom, ParseRest, AtomTokens, AtomMeaning, Combine;
    var q := p + |op.Tokens()|;
    SpellsSplit(ts, p, op.Tokens(), ChainTokens(c));
    assert ts[q + 0] == ChainTokens(c)[0];
    assert op != Beside ==> ts[p + 0] == op.Tokens()[0];
    match c
    case Last(a) =>
      var e := q + |AtomTokens(a)|;
      ReadPrintedAtom(f, ts, q, a);
      RestStep(f, ts, p, op, e, AtomMeaning(f, a), sofar);
      RestStop(f, ts, e, Combine(sofar, AtomMeaning(f, a)));
    case More(a, op', rest) =>
      var first, tail := AtomTokens(a), op'.Tokens() + ChainTokens(rest);
      SpellsSplit(ts, q, first, tail);
      assert tail[0] != With && ts[q + |first| + 0] == tail[0];
      ReadPrintedAtom(f, ts, q, a);
      RestStep(f, ts, p, op, q + |first|, AtomMeaning(f, a), sofar);
      ReadPrintedRest(f, ts, q + |first|, op', rest, Combine(sofar, AtomMeaning(f, a)));
      CombineAssociative(sofar, AtomMeaning(f, a), ChainMeaning(f, rest));
  }

  /** The parser accepts every printed expression with its meaning. */
  lemma ReadPrinted(f: Families, c: Chain)
    ensures Parse(f, ChainTokens(c)) == Ok(ChainMeaning(f, c))
    ensures Says(f, ChainTokens(c), ChainMeaning(f, c))
  {
    ReadPrintedChain(f, ChainTokens(c), 0, c);
    hide StrongestClaim, Doubtful;
    ChainSays(f, c);
  }

  /** Whatever the parser reads as an atom is the print of some atom with that meaning. */
  lemma {:induction false} AtomWasPrinted(f: Families, ts: seq<Token>, p: nat) returns (a: Atom)
    requires p <= |ts| && ParseAtom(f, ts, p).Ok?
    ensures var r := ParseAtom(f, ts, p).value;
      Spells(ts, p, AtomTokens(a)) && p + |AtomTokens(a)| == r.position && AtomMeaning(f, a) == r.meaning
    decreases |ts| - p, 0
  {
    if ts[p] == Open {
      var c := ChainWasPrinted(f, ts, p + 1);
      a := Group(c);
      var inner := ChainTokens(c);
      assert AtomTokens(a) == [Open] + (inner + [Close]);
      SpellsSplit(ts, p + 1, inner, [Close]);
      SpellsSplit(ts, p, [Open], inner + [Close]);
    } else if p + 1 < |ts| && ts[p + 1] == With {
      a := License(ts[p].text, Some(ts[p + 2].text));
    } else {
      a := License(ts[p].text, None);
    }
  }

  lemma {:induction false} ChainWasPrinted(f: Families, ts: seq<Token>, p: nat) returns (c: Chain)
    requires p <= |ts| && ParseChain(f, ts, p).Ok?
    ensures var r := ParseChain(f, ts, p).value;
      Spells(ts, p, ChainTokens(c)) && p + |ChainTokens(c)| == r.position && ChainMeaning(f, c) == r.meaning
    decreases |ts| - p, 1
  {
    var a := AtomWasPrinted(f, ts, p);
    var q := p + |AtomTokens(a)|;
    if q == |ts| || ts[q] == Close {
      c := Last(a);
    } else {
      var op, rest := RestWasPrinted(f, ts, q, AtomMeaning(f, a));
      c := More(a, op, rest);
      SpellsSplit(ts, p, AtomTokens(a), op.Tokens() + ChainTokens(rest));
    }
  }

  lemma RestReads(f: Families, ts: seq<Token>, p: nat, q: nat, sofar: Assessment)
    requires p < |ts| && ts[p] != Close && ParseRest(f, ts, p, sofar).Ok?
    requires q == if ts[p] == And || ts[p] == Or then p + 1 else p
    ensures ParseAtom(f, ts, q).Ok?
  {
  }

  lemma {:induction false} RestWasPrinted(f: Families, ts: seq<Token>, p: nat, sofar: Assessment)
      returns (op: Operator, c: Chain)
    requires p < |ts| && ts[p] != Close && ParseRest(f, ts, p, sofar).Ok?
    ensures var r := ParseRest(f, ts, p, sofar).value; var part := op.Tokens() + ChainTokens(c);
      Spells(ts, p, part) && p + |part| == r.position && Combine(sofar, ChainMeaning(f, c)) == r.meaning
    decreases |ts| - p, 1
  {
    hide ParseAtom, ParseRest, AtomTokens, AtomMeaning, Combine;
    op := if ts[p] == And then AndOperator else if ts[p] == Or then OrOperator else Beside;
    var q := p + |op.Tokens()|;
    RestReads(f, ts, p, q, sofar);
    var a := AtomWasPrinted(f, ts, q);
    var m := AtomMeaning(f, a);
    var e := q + |AtomTokens(a)|;
    RestStep(f, ts, p, op, e, m, sofar);
    if e == |ts| || ts[e] == Close {
      RestStop(f, ts, e, Combine(sofar, m));
      c := Last(a);
    } else {
      var op', rest := RestWasPrinted(f, ts, e, Combine(sofar, m));
      c := More(a, op', rest);
      SpellsSplit(ts, q, AtomTokens(a), op'.Tokens() + ChainTokens(rest));
      CombineAssociative(sofar, m, ChainMeaning(f, rest));
    }
    SpellsSplit(ts, p, op.Tokens(), ChainTokens(c));
  }

  /** A token list parses exactly when it is the print of an expression, and then to its meaning. */
  lemma ParsesExactlyPrints(f: Families, ts: seq<Token>)
    ensures Parse(f, ts).Ok? <==> exists c :: ChainTokens(c) == ts
    ensures forall c :: ChainTokens(c) == ts ==> Parse(f, ts) == Ok(ChainMeaning(f, c))
  {
    forall c | ChainTokens(c) == ts ensures Parse(f, ts) == Ok(ChainMeaning(f, c)) { ReadPrinted(f, c); }
    if Parse(f, ts).Ok? {
      var c := ChainWasPrinted(f, ts, 0);
      assert ChainTokens(c) == ts;
    }
  }

  // ----- what a parsed list says -----

  /** Token `k` names a license: it is a word that is not the exception of another. */
  ghost predicate NamesLicense(ts: seq<Token>, k: int) {
    0 <= k < |ts| && ts[k].Word? && (k > 0 ==> ts[k - 1] != With)
  }

  ghost predicate HasException(ts: seq<Token>, k: int) {
    0 <= k && k + 1 < |ts| && ts[k + 1] == With
  }

  /** A trailing plus is not part of the identifier that is looked up. */
  ghost predicate InFamily(f: Families, id: string, c: Category) {
    exists base :: f(base) == c && (id == base + "+" || (id == base && !EndsWith(id, "+")))
  }

  /** The list names a license of this family, with or without an exception. */
  ghost predicate Claims(f: Families, ts: seq<Token>, c: Category) {
    exists k :: NamesLicense(ts, k) && InFamily(f, ts[k].text, c)
  }

  ghost predicate Doubtful(f: Families, ts: seq<Token>) {
    exists k :: NamesLicense(ts, k) && (HasException(ts, k) || InFamily(f, ts[k].text, Unknown))
  }

  /** The family is claimed, and none that is stronger. */
  ghost predicate StrongestClaim(f: Families, ts: seq<Token>, c: Category) {
    match c
    case StrongCopyleft => Claims(f, ts, StrongCopyleft)
    case Copyleft => Claims(f, ts, Copyleft) && !Claims(f, ts, StrongCopyleft)
    case Permissive => Claims(f, ts, Permissive) && !Claims(f, ts, Copyleft) && !Claims(f, ts, StrongCopyleft)
    case Proprietary =>
      && Claims(f, ts, Proprietary)
      && !Claims(f, ts, Permissive) && !Claims(f, ts, Copyleft) && !Claims(f, ts, StrongCopyleft)
    case Unknown =>
      && !Claims(f, ts, Proprietary)
      && !Claims(f, ts, Permissive) && !Claims(f, ts, Copyleft) && !Claims(f, ts, StrongCopyleft)
  }

  lemma PlusAtEnd(id: string)
    ensures EndsWith(id, "+") <==> id != "" && id[|id| - 1] == '+'
    ensures EndsWith(id, "+") ==> id == id[..|id| - 1] + "+"
  {
    if id != "" { assert id[|id| - 1..] == [id[|id| - 1]]; }
  }

  lemma FamilyIs(f: Families, id: string, c: Category)
    ensures InFamily(f, id, c) <==> f(Base(id)) == c
  {
    PlusAtEnd(id);
    assert id == Base(id) + "+" || (id == Base(id) && !EndsWith(id, "+"));
    forall base | id == base + "+" ensures base == Base(id) { assert id[|id| - 1] == '+' && id[..|id| - 1] == base; }
  }

  /** Neither part begins or ends in the middle of an exception clause. */
  ghost predicate Separate(a: seq<Token>, b: seq<Token>) {
    a != [] && b != [] && a[|a| - 1] != With && b[0] != With
  }

  lemma NamesAppend(a: seq<Token>, b: seq<Token>, k: int)
    requires Separate(a, b)
    ensures NamesLicense(a + b, k) <==> NamesLicense(a, k) || NamesLicense(b, k - |a|)
    ensures NamesLicense(a, k) ==> (a + b)[k] == a[k] && (HasException(a + b, k) <==> HasException(a, k))
    ensures NamesLicense(b, k - |a|) ==>
      (a + b)[k] == b[k - |a|] && (HasException(a + b, k) <==> HasException(b, k - |a|))
  {
  }

  lemma ClaimsAppend(f: Families, a: seq<Token>, b: seq<Token>, c: Category)
    requires Separate(a, b)
    ensures Claims(f, a + b, c) <==> Claims(f, a, c) || Claims(f, b, c)
  {
    hide InFamily;
    if k :| NamesLicense(a + b, k) && InFamily(f, (a + b)[k].text, c) { NamesAppend(a, b, k); }
    if k :| NamesLicense(a, k) && InFamily(f, a[k].text, c) { NamesAppend(a, b, k); }
    if k :| NamesLicense(b, k) && InFamily(f, b[k].text, c) { NamesAppend(a, b, k + |a|); }
  }

  lemma DoubtfulAppend(f: Families, a: seq<Token>, b: seq<Token>)
    requires Separate(a, b)
    ensures Doubtful(f, a + b) <==> Doubtful(f, a) || Doubtful(f, b)
  {
    hide InFamily;
    if k :| NamesLicense(a + b, k) && (HasException(a + b, k) || InFamily(f, (a + b)[k].text, Unknown)) {
      NamesAppend(a, b, k);
    }
    if k :| NamesLicense(a, k) && (HasException(a, k) || InFamily(f, a[k].text, Unknown)) { NamesAppend(a, b, k); }
    if k :| NamesLicense(b, k) && (HasException(b, k) || InFamily(f, b[k].text, Unknown)) {
      NamesAppend(a, b, k + |a|);
    }
  }

  /** The tokens say what the assessment says. */
  ghost predicate Says(f: Families, ts: seq<Token>, m: Assessment) {
    StrongestClaim(f, ts, m.category) && (m.unresolved <==> Doubtful(f, ts))
  }

  lemma SaysBoth(f: Families, a: seq<Token>, b: seq<Token>, m: Assessment, n: Assessment)
    requires Separate(a, b) && Says(f, a, m) && Says(f, b, n)
    ensures Says(f, a + b, Combine(m, n))
  {
    hide Claims, Doubtful;
    ClaimsAppend(f, a, b, StrongCopyleft);
    ClaimsAppend(f, a, b, Copyleft);
    ClaimsAppend(f, a, b, Permissive);
    ClaimsAppend(f, a, b, Proprietary);
    DoubtfulAppend(f, a, b);
  }

  /** Tokens that are no words change nothing. */
  lemma Wordless(f: Families, t: Token)
    requires !t.Word?
    ensures !Doubtful(f, [t]) && forall c :: !Claims(f, [t], c)
  {
  }

  lemma SaysWith(f: Families, t: Token, ts: seq<Token>, m: Assessment)
    requires !t.Word? && t != With && Says(f, ts, m)
    requires ts != [] && ts[0] != With && ts[|ts| - 1] != With
    ensures Says(f, [t] + ts, m) && Says(f, ts + [t], m)
  {
    hide Claims, Doubtful;
    Wordless(f, t);
    forall c ensures Claims(f, [t] + ts, c) <==> Claims(f, ts, c) { ClaimsAppend(f, [t], ts, c); }
    forall c ensures Claims(f, ts + [t], c) <==> Claims(f, ts, c) { ClaimsAppend(f, ts, [t], c); }
    DoubtfulAppend(f, [t], ts);
    DoubtfulAppend(f, ts, [t]);
  }

  lemma SaysLicense(f: Families, id: string, e: Option<string>)
    ensures Says(f, AtomTokens(License(id, e)), LicenseMeaning(f, id, e.Some?))
  {
    var ts := AtomTokens(License(id, e));
    forall c ensures InFamily(f, id, c) <==> f(Base(id)) == c { FamilyIs(f, id, c); }
    hide InFamily, Base;
    assert NamesLicense(ts, 0) && ts[0].text == id;
    assert forall k :: NamesLicense(ts, k) ==> k == 0;
  }

  lemma {:induction false} AtomSays(f: Families, a: Atom)
    ensures Says(f, AtomTokens(a), AtomMeaning(f, a))
    ensures var ts := AtomTokens(a); ts[0] != With && ts[|ts| - 1] != With
    decreases a, 0
  {
    match a
    case License(id, e) =>
      hide Says;
      SaysLicense(f, id, e);
    case Group(chain) =>
      hide Says, ChainTokens, ChainMeaning;
      ChainSays(f, chain);
      var inner := ChainTokens(chain);
      SaysWith(f, Open, inner, ChainMeaning(f, chain));
      SaysWith(f, Close, [Open] + inner, ChainMeaning(f, chain));
  }

  lemma {:induction false} ChainSays(f: Families, c: Chain)
    ensures Says(f, ChainTokens(c), ChainMeaning(f, c))
    ensures var ts := ChainTokens(c); ts[0] != With && ts[|ts| - 1] != With
    decreases c, 1
  {
    hide Says, AtomTokens, AtomMeaning, Combine;
    match c
    case Last(a) => AtomSays(f, a);
    case More(a, op, rest) =>
      AtomSays(f, a);
      ChainSays(f, rest);
      var tail := op.Tokens() + ChainTokens(rest);
      if op == Beside { assert tail == ChainTokens(rest); } else {
        SaysWith(f, op.Tokens()[0], ChainTokens(rest), ChainMeaning(f, rest));
      }
      SaysBoth(f, AtomTokens(a), tail, AtomMeaning(f, a), ChainMeaning(f, rest));
  }

  /**
   A parsed list gets the strongest family that one of its licenses claims, and is unresolved
   exactly when one of them carries an exception or belongs to no family.
   */
  lemma ParsedSays(f: Families, ts: seq<Token>)
    requires Parse(f, ts).Ok?
    ensures Says(f, ts, Parse(f, ts).value)
  {
    hide StrongestClaim, Doubtful, Parse;
    ParsesExactlyPrints(f, ts);
    var c :| ChainTokens(c) == ts;
    ChainSays(f, c);
  }

  /** A trailing plus makes no difference to any claim. */
  lemma PlusIrrelevant(f: Families, id: string, c: Category)
    requires !EndsWith(id, "+")
    ensures InFamily(f, id + "+", c) <==> InFamily(f, id, c)
  {
    FamilyIs(f, id, c);
    FamilyIs(f, id + "+", c);
    PlusAtEnd(id);
  }

  // ----- the pre-scan -----

  predicate IdChar(c: char) {
    'A' <= c <= 'Z' || '0' <= c <= '9' || c == '.' || c == '-'
  }

  predicate AllIdChars(s: string) {
    forall k :: 0 <= k < |s| ==> IdChar(s[k])
  }

  predicate Reference(s: string, prefix: string) {
    StartsWith(s, prefix) && |s| > |prefix| && AllIdChars(s[|prefix|..])
  }

  /** A plain identifier with an optional plus, or a document and license reference. */
  predicate Identifier(w: string) {
    if ':' in w
    then exists k ::
      0 <= k < |w| && w[k] == ':' && Reference(w[..k], "DOCUMENTREF-") && Reference(w[k + 1..], "LICENSEREF-")
    else Base(w) != "" && AllIdChars(Base(w))
  }

  const MAX_DEPTH := 32

  /** The depth after scanning all tokens, or nothing for a bad identifier or parenthesis. */
  function Scan(ts: seq<Token>, depth: nat): Option<nat> {
    if ts == [] then Some(depth)
    else
      match ts[0]
      case Open => if depth + 1 > MAX_DEPTH then None else Scan(ts[1..], depth + 1)
      case Close => if depth == 0 then None else Scan(ts[1..], depth - 1)
      case Word(w) => if Identifier(w) then Scan(ts[1..], depth) else None
      case _ => Scan(ts[1..], depth)
  }

  method PreScan(tokens: seq<Token>) returns (ok: bool)
    ensures ok <==> Scan(tokens, 0) == Some(0)
  {
    hide Identifier;
    var depth := 0;
    for i := 0 to |tokens|
      invariant depth >= 0 && Scan(tokens[i..], depth) == Scan(tokens, 0)
    {
      assert tokens[i..][1..] == tokens[i + 1..];
      match tokens[i]
      case Open =>
        depth := depth + 1;
        if depth > MAX_DEPTH { return false; }
      case Close =>
        depth := depth - 1;
        if depth < 0 { return false; }
      case Word(w) =>
        var good := Identifier(w);
        if !good { return false; }
      case _ =>
    }
    return depth == 0;
  }

  lemma ScanAt(ts: seq<Token>, p: nat, depth: nat)
    requires p < |ts|
    ensures ts[p] == Open ==>
      Scan(ts[p..], depth) == if depth + 1 > MAX_DEPTH then None else Scan(ts[p + 1..], depth + 1)
    ensures ts[p] == Close ==> Scan(ts[p..], depth) == if depth == 0 then None else Scan(ts[p + 1..], depth - 1)
    ensures ts[p].Word? && Scan(ts[p..], depth).Some? ==> Scan(ts[p..], depth) == Scan(ts[p + 1..], depth)
    ensures ts[p].And? || ts[p].Or? || ts[p].With? ==> Scan(ts[p..], depth) == Scan(ts[p + 1..], depth)
  {
    assert ts[p..][1..] == ts[p + 1..];
  }

  /** Scanned tokens: an atom leaves the depth as it was, and never lacks its closing parenthesis. */
  lemma {:induction false} AtomCloses(f: Families, ts: seq<Token>, p: nat, depth: nat)
    requires p <= |ts| && Scan(ts[p..], depth) == Some(0)
    ensures var r := ParseAtom(f, ts, p);
      r != Err(MissingClose) && r != Err(TrailingToken) && (r.Ok? ==> Scan(ts[r.value.position..], depth) == Some(0))
    decreases |ts| - p, 0
  {
    hide Scan;
    if p < |ts| {
      ScanAt(ts, p, depth);
      if ts[p] == Open {
        ChainCloses(f, ts, p + 1, depth + 1);
        var inner := ParseChain(f, ts, p + 1);
        if inner.Ok? {
          var q := inner.value.position;
          if q == |ts| { ScanEnd(ts, depth + 1); } else { ScanAt(ts, q, depth + 1); }
        }
      } else if p + 2 < |ts| && ts[p + 1] == With {
        ScanAt(ts, p + 1, depth);
        ScanAt(ts, p + 2, depth);
      }
    }
  }

  lemma ScanEnd(ts: seq<Token>, depth: nat)
    ensures Scan(ts[|ts|..], depth) == Some(depth)
  {
  }

  lemma {:induction false} ChainCloses(f: Families, ts: seq<Token>, p: nat, depth: nat)
    requires p <= |ts| && Scan(ts[p..], depth) == Some(0)
    ensures var r := ParseChain(f, ts, p);
      r != Err(MissingClose) && r != Err(TrailingToken) && (r.Ok? ==> Scan(ts[r.value.position..], depth) == Some(0))
    decreases |ts| - p, 1
  {
    hide Scan;
    AtomCloses(f, ts, p, depth);
    var first := ParseAtom(f, ts, p);
    if first.Ok? { RestCloses(f, ts, first.value.position, first.value.meaning, depth); }
  }

  lemma {:induction false} RestCloses(f: Families, ts: seq<Token>, p: nat, sofar: Assessment, depth: nat)
    requires p <= |ts| && Scan(ts[p..], depth) == Some(0)
    ensures var r := ParseRest(f, ts, p, sofar);
      r != Err(MissingClose) && r != Err(TrailingToken) && (r.Ok? ==> Scan(ts[r.value.position..], depth) == Some(0))
    decreases |ts| - p, 1
  {
    hide Scan;
    if p < |ts| && ts[p] != Close {
      ScanAt(ts, p, depth);
      var q := if ts[p] == And || ts[p] == Or then p + 1 else p;
      AtomCloses(f, ts, q, depth);
      var right := ParseAtom(f, ts, q);
      if right.Ok? { RestCloses(f, ts, right.value.position, Combine(sofar, right.value.meaning), depth); }
    }
  }

  /** After the pre-scan no expression can lack a close or leave a trailing token. */
  lemma PreScanRulesOutParentheses(f: Families, ts: seq<Token>)
    requires Scan(ts, 0) == Some(0)
    ensures Parse(f, ts) != Err(MissingClose) && Parse(f, ts) != Err(TrailingToken)
  {
    hide Scan, ParseChain;
    assert ts[0..] == ts;
    ChainCloses(f, ts, 0, 0);
    var top := ParseChain(f, ts, 0);
    if top.Ok? && top.value.position < |ts| { ScanAt(ts, top.value.position, 0); }
  }

  lemma {:induction false} ScanAppend(a: seq<Token>, b: seq<Token>, depth: nat)
    ensures Scan(a + b, depth) == match Scan(a, depth) case None => None case Some(d) => Scan(b, d)
    decreases |a|
  {
    hide Identifier;
    if a == [] {
      assert a + b == b;
    } else {
      assert (a + b)[0] == a[0] && (a + b)[1..] == a[1..] + b;
      match a[0]
      case Open => ScanAppend(a[1..], b, depth + 1);
      case Close => if depth > 0 { ScanAppend(a[1..], b, depth - 1); }
      case _ => ScanAppend(a[1..], b, depth);
    }
  }

  /** How many parentheses are open at once inside an expression. */
  function AtomNesting(a: Atom): nat {
    match a
    case License(_, _) => 0
    case Group(c) => 1 + ChainNesting(c)
  }

  function ChainNesting(c: Chain): nat {
    match c
    case Last(a) => AtomNesting(a)
    case More(a, _, rest) => Max(AtomNesting(a), ChainNesting(rest))
  }

  predicate AtomIdentifiers(a: Atom) {
    match a
    case License(id, e) => Identifier(id) && (e.Some? ==> Identifier(e.value))
    case Group(c) => ChainIdentifiers(c)
  }

  predicate ChainIdentifiers(c: Chain) {
    match c
    case Last(a) => AtomIdentifiers(a)
    case More(a, _, rest) => AtomIdentifiers(a) && ChainIdentifiers(rest)
  }

  lemma {:induction false} ScanAtom(a: Atom, depth: nat)
    requires AtomIdentifiers(a) && depth <= MAX_DEPTH
    ensures Scan(AtomTokens(a), depth) == if depth + AtomNesting(a) <= MAX_DEPTH then Some(depth) else None
    decreases a, 0
  {
    hide Identifier;
    match a
    case License(id, None) => ScanWords([Word(id)], depth);
    case License(id, Some(e)) => ScanWords([Word(id), With, Word(e)], depth);
    case Group(c) =>
      var inner := ChainTokens(c);
      assert AtomTokens(a) == [Open] + (inner + [Close]);
      assert AtomTokens(a)[1..] == inner + [Close];
      if depth < MAX_DEPTH {
        ScanChain(c, depth + 1);
        ScanAppend(inner, [Close], depth + 1);
        assert [Close][1..] == [];
        assert Scan([Close], depth + 1) == Some(depth);
      }
  }

  lemma {:induction false} ScanWords(ts: seq<Token>, depth: nat)
    requires forall k :: 0 <= k < |ts| ==> ts[k] == With || (ts[k].Word? && Identifier(ts[k].text))
    ensures Scan(ts, depth) == Some(depth)
  {
    hide Identifier;
    if ts != [] { ScanWords(ts[1..], depth); }
  }

  /** Of a well-named expression the pre-scan rejects exactly what nests too deeply. */
  lemma {:induction false} ScanChain(c: Chain, depth: nat)
    requires ChainIdentifiers(c) && depth <= MAX_DEPTH
    ensures Scan(ChainTokens(c), depth) == if depth + ChainNesting(c) <= MAX_DEPTH then Some(depth) else None
    decreases c, 1
  {
    hide Identifier, Scan;
    match c
    case Last(a) => ScanAtom(a, depth);
    case More(a, op, rest) =>
      ScanAtom(a, depth);
      ScanChain(rest, depth);
      ScanOperator(op, depth);
      ScanAppend(op.Tokens(), ChainTokens(rest), depth);
      ScanAppend(AtomTokens(a), op.Tokens() + ChainTokens(rest), depth);
  }

  lemma ScanOperator(op: Operator, depth: nat)
    ensures Scan(op.Tokens(), depth) == Some(depth)
  {
    assert [And][1..] == [] && [Or][1..] == [];
  }

  // ----- texts -----

  predicate WordChar(c: char) {
    'A' <= c <= 'Z' || 'a' <= c <= 'z' || '0' <= c <= '9' || c in {'.', '-', '+', ':'}
  }

  predicate AllowedChar(c: char) {
    WordChar(c) || c in {'(', ')', ' ', '\t', '\r', '\n', '\U{000B}', '\U{000C}'}
  }

  predicate AllowedText(s: string) {
    |s| <= 4096 && forall k :: 0 <= k < |s| ==> AllowedChar(s[k])
  }

  function Upper(s: string): (u: string)
    ensures |u| == |s|
    ensures forall k :: 0 <= k < |s| ==> u[k] == UpperChar(s[k])
  {
    seq(|s|, k requires 0 <= k < |s| => UpperChar(s[k]))
  }

  function UpperChar(c: char): (u: char)
    ensures WordChar(u) == WordChar(c) && AllowedChar(u) == AllowedChar(c) && UpperFixed(u)
  {
    if 'a' <= c <= 'z' then (c as int - 32) as char else c
  }

  predicate UpperFixed(c: char) {
    !('a' <= c <= 'z')
  }

  function ToToken(w: string): Token {
    if w == "AND" then And else if w == "OR" then Or else if w == "WITH" then With else Word(w)
  }

  function WordRun(s: string): (n: nat)
    ensures n <= |s| && forall k :: 0 <= k < n ==> WordChar(s[k])
    ensures n < |s| ==> !WordChar(s[n])
  {
    if s == "" || !WordChar(s[0]) then 0 else 1 + WordRun(s[1..])
  }

  /** Words and parentheses, in order; everything between them is dropped. */
  function Tokenize(s: string): seq<Token>
    decreases |s|
  {
    if s == "" then []
    else if s[0] == '(' then [Open] + Tokenize(s[1..])
    else if s[0] == ')' then [Close] + Tokenize(s[1..])
    else if WordChar(s[0]) then [ToToken(s[..WordRun(s)])] + Tokenize(s[WordRun(s)..])
    else Tokenize(s[1..])
  }

  function Tokens(text: string): seq<Token> {
    Tokenize(Upper(text))
  }

  const MAX_TOKENS := 256

  /** The meaning of a text, or nothing when it is rejected at any stage. */
  function Assess(f: Families, text: string): Option<Assessment> {
    var ts := Tokens(text);
    if !AllowedText(text) || ts == [] || |ts| > MAX_TOKENS || Scan(ts, 0) != Some(0) then None
    else match Parse(f, ts)
      case Ok(m) => Some(m)
      case Err(_) => None
  }

  const REJECTED := Assessment(Unknown, true)

  method AdvisoryAssessment(f: Families, expression: string) returns (a: Assessment)
    ensures a == match Assess(f, expression) case Some(m) => m case None => REJECTED
    ensures Assess(f, expression).Some? ==> Says(f, Tokens(expression), a)
  {
    hide Says;
    if !AllowedText(expression) { return REJECTED; }
    var tokens := Tokens(expression);
    if tokens == [] || |tokens| > MAX_TOKENS { return REJECTED; }
    var ok := PreScan(tokens);
    if !ok { return REJECTED; }
    var parser := new Parser(f, tokens);
    var r := parser.ReadAll();
    return match r case Ok(m) => m case Err(_) => REJECTED;
  }

  lemma {:induction false} WordRunAppend(a: string, b: string)
    requires b == "" || !WordChar(b[0])
    ensures WordRun(a + b) == WordRun(a)
  {
    if a == "" {
      assert a + b == b;
    } else {
      assert (a + b)[0] == a[0] && (a + b)[1..] == a[1..] + b;
      WordRunAppend(a[1..], b);
    }
  }

  function Delimiter(c: char): seq<Token> {
    if c == '(' then [Open] else if c == ')' then [Close] else []
  }

  lemma TokenizeStep(s: string)
    requires s != ""
    ensures WordChar(s[0]) ==> Tokenize(s) == [ToToken(s[..WordRun(s)])] + Tokenize(s[WordRun(s)..])
    ensures !WordChar(s[0]) ==> Tokenize(s) == Delimiter(s[0]) + Tokenize(s[1..])
  {
  }

  /** Texts that meet at a word boundary are tokenized separately. */
  lemma {:induction false} TokenizeAppend(a: string, b: string)
    requires b == "" || !WordChar(b[0])
    ensures Tokenize(a + b) == Tokenize(a) + Tokenize(b)
    decreases |a|
  {
    if a == "" {
      assert a + b == b;
    } else {
      hide Tokenize, ToToken, WordRun, Delimiter;
      TokenizeStep(a);
      TokenizeStep(a + b);
      assert (a + b)[0] == a[0];
      if WordChar(a[0]) {
        WordRunAppend(a, b);
        WordRunPositive(a);
        var n := WordRun(a);
        assert (a + b)[..n] == a[..n] && (a + b)[n..] == a[n..] + b;
        TokenizeAppend(a[n..], b);
      } else {
        assert (a + b)[1..] == a[1..] + b;
        TokenizeAppend(a[1..], b);
      }
    }
  }

  lemma WordRunPositive(a: string)
    requires a != "" && WordChar(a[0])
    ensures WordRun(a) > 0
  {
  }

  lemma UpperAppend(a: string, b: string)
    ensures Upper(a + b) == Upper(a) + Upper(b)
  {
  }

  lemma TokensAppend(a: string, b: string)
    requires b == "" || !WordChar(b[0])
    ensures Tokens(a + b) == Tokens(a) + Tokens(b)
  {
    UpperAppend(a, b);
    TokenizeAppend(Upper(a), Upper(b));
  }

  // ----- cumulative license lists -----

  function Parenthesised(v: string): string {
    "(" + v + ")"
  }

  /** The license values of a package, each in parentheses, joined by AND. */
  function Joined(licenses: seq<string>): string {
    if licenses == [] then ""
    else if |licenses| == 1 then Parenthesised(licenses[0])
    else Parenthesised(licenses[0]) + " AND " + Joined(licenses[1..])
  }

  function JoinedTokens(licenses: seq<string>): seq<Token> {
    if licenses == [] then []
    else
      [Open] + Tokens(licenses[0]) + [Close] +
      if |licenses| == 1 then [] else [And] + JoinedTokens(licenses[1..])
  }

  lemma ParenthesisedTokens(v: string)
    ensures Tokens(Parenthesised(v)) == [Open] + Tokens(v) + [Close]
  {
    hide Tokens;
    TokensAppend("(" + v, ")");
    assert "(" + v + ")" == Parenthesised(v);
    SmallTokens(v);
  }

  lemma SmallTokens(v: string)
    ensures Tokens("(" + v) == [Open] + Tokens(v) && Tokens(")") == [Close]
    ensures Tokens(" AND ") == [And]
  {
    UpperAppend("(", v);
    var u := Upper("(" + v);
    assert u[0] == '(' && u[1..] == Upper(v);
    var c := Upper(")");
    assert c[0] == ')' && c[1..] == "";
    var s := Upper(" AND ");
    assert s == " AND ";
    assert s[1..] == "AND ";
    TokenizeAppend("AND", " ");
    assert "AND" + " " == "AND ";
    assert WordRun("AND") == 3 by { assert "AND"[1..] == "ND" && "ND"[1..] == "D" && "D"[1..] == ""; }
    assert "AND"[..3] == "AND" && "AND"[3..] == "";
    assert " "[1..] == "";
  }

  lemma {:induction false} JoinedTokenized(licenses: seq<string>)
    ensures Tokens(Joined(licenses)) == JoinedTokens(licenses)
  {
    hide Tokens;
    if licenses == [] {
      NoTokens();
    } else {
      var v := licenses[0];
      ParenthesisedTokens(v);
      if |licenses| > 1 {
        var rest := Joined(licenses[1..]);
        JoinedTokenized(licenses[1..]);
        SmallTokens(v);
        assert rest[0] == '(';
        TokensAppend(" AND ", rest);
        TokensAppend(Parenthesised(v), " AND " + rest);
        assert Parenthesised(v) + " AND " + rest == Parenthesised(v) + (" AND " + rest);
      }
    }
  }

  lemma NoTokens()
    ensures Tokens("") == []
  {
  }

  /** The expression a license list stands for, once every value is one. */
  function JoinedChain(chains: seq<Chain>): Chain
    requires chains != []
  {
    if |chains| == 1 then Last(Group(chains[0]))
    else More(Group(chains[0]), AndOperator, JoinedChain(chains[1..]))
  }

  function CombineAll(ms: seq<Assessment>): Assessment
    requires ms != []
  {
    if |ms| == 1 then ms[0] else Combine(ms[0], CombineAll(ms[1..]))
  }

  lemma {:induction false} JoinedChainTokens(licenses: seq<string>, chains: seq<Chain>)
    requires |licenses| == |chains| > 0
    requires forall k :: 0 <= k < |licenses| ==> Tokens(licenses[k]) == ChainTokens(chains[k])
    ensures JoinedTokens(licenses) == ChainTokens(JoinedChain(chains))
    decreases |licenses|
  {
    hide Tokens;
    assert Tokens(licenses[0]) == ChainTokens(chains[0]);
    if |licenses| > 1 {
      JoinedChainTokens(licenses[1..], chains[1..]);
      assert AndOperator.Tokens() == [And];
    }
  }

  lemma {:induction false} JoinedChainMeaning(f: Families, chains: seq<Chain>, ms: seq<Assessment>)
    requires |ms| == |chains| > 0 && forall k :: 0 <= k < |ms| ==> ms[k] == ChainMeaning(f, chains[k])
    ensures ChainMeaning(f, JoinedChain(chains)) == CombineAll(ms)
    decreases |ms|
  {
    assert AtomMeaning(f, Group(chains[0])) == ms[0];
    if |ms| > 1 { JoinedChainMeaning(f, chains[1..], ms[1..]); }
  }

  /** What the limits of the joined text come to: its length, its tokens, and one more level of depth. */
  ghost predicate JoinedFits(licenses: seq<string>) {
    && |Joined(licenses)| <= 4096
    && |JoinedTokens(licenses)| <= MAX_TOKENS
    && forall k :: 0 <= k < |licenses| ==> Scan(Tokens(licenses[k]), 1) == Some(1)
  }

  lemma {:induction false} ScanJoined(licenses: seq<string>)
    requires forall k :: 0 <= k < |licenses| ==> Scan(Tokens(licenses[k]), 0) == Some(0)
    ensures Scan(JoinedTokens(licenses), 0) == Some(0)
       <==> forall k :: 0 <= k < |licenses| ==> Scan(Tokens(licenses[k]), 1) == Some(1)
    ensures Scan(JoinedTokens(licenses), 0).Some? ==> Scan(JoinedTokens(licenses), 0) == Some(0)
    decreases |licenses|
  {
    hide Scan, Tokens;
    if licenses == [] {
      ScanNothing(0);
    } else {
      var ts := Tokens(licenses[0]);
      var rest := licenses[1..];
      var tail := if rest == [] then [] else [And] + JoinedTokens(rest);
      assert JoinedTokens(licenses) == [Open] + ts + [Close] + tail;
      ScanGroup(ts);
      ScanAppend([Open] + ts + [Close], tail, 0);
      ScanJoined(rest);
      ScanNothing(0);
      ScanOperator(AndOperator, 0);
      ScanAppend([And], JoinedTokens(rest), 0);
      assert licenses == [licenses[0]] + rest;
    }
  }

  lemma ScanNothing(depth: nat)
    ensures Scan([], depth) == Some(depth)
  {
  }

  lemma ScanGroup(ts: seq<Token>)
    requires Scan(ts, 0) == Some(0)
    ensures Scan([Open] + ts + [Close], 0) == if Scan(ts, 1) == Some(1) then Some(0) else None
  {
    hide Identifier;
    ScanAppend([Open] + ts, [Close], 0);
    assert ([Open] + ts)[1..] == ts;
    ScanDeeper(ts, 0);
    assert [Close][1..] == [];
  }

  /** One level deeper the same tokens end one level deeper, or exceed the limit. */
  lemma {:induction false} ScanDeeper(ts: seq<Token>, depth: nat)
    requires Scan(ts, depth).Some?
    ensures Scan(ts, depth + 1) == None || Scan(ts, depth + 1) == Some(Scan(ts, depth).value + 1)
    decreases |ts|
  {
    hide Identifier;
    if ts != [] {
      match ts[0]
      case Open => ScanDeeper(ts[1..], depth + 1);
      case Close => ScanDeeper(ts[1..], depth - 1);
      case _ => ScanDeeper(ts[1..], depth);
    }
  }

  lemma ParsedText(f: Families, v: string, m: Assessment) returns (c: Chain)
    requires Assess(f, v) == Some(m)
    ensures Tokens(v) == ChainTokens(c) && m == ChainMeaning(f, c)
    ensures Scan(Tokens(v), 0) == Some(0) && AllowedText(v)
  {
    hide Tokens, Scan, AllowedText, Parse;
    ParsesExactlyPrints(f, Tokens(v));
    c :| ChainTokens(c) == Tokens(v);
  }

  lemma {:induction false} ParsedTexts(f: Families, licenses: seq<string>,
      ms: seq<Assessment>) returns (chains: seq<Chain>)
    requires |ms| == |licenses| && forall k :: 0 <= k < |ms| ==> Assess(f, licenses[k]) == Some(ms[k])
    ensures |chains| == |ms|
    ensures forall k :: 0 <= k < |ms| ==>
      Tokens(licenses[k]) == ChainTokens(chains[k]) && ms[k] == ChainMeaning(f, chains[k])
    ensures forall k :: 0 <= k < |ms| ==> Scan(Tokens(licenses[k]), 0) == Some(0) && AllowedText(licenses[k])
    decreases |ms|
  {
    hide Assess, Tokens, Scan, AllowedText;
    chains := [];
    if ms != [] {
      var n := |ms| - 1;
      chains := ParsedTexts(f, licenses[..n], ms[..n]);
      var c := ParsedText(f, licenses[n], ms[n]);
      forall k | 0 <= k < n
        ensures Tokens(licenses[k]) == ChainTokens(chains[k]) && ms[k] == ChainMeaning(f, chains[k])
        ensures Scan(Tokens(licenses[k]), 0) == Some(0) && AllowedText(licenses[k])
      {
        assert licenses[..n][k] == licenses[k] && ms[..n][k] == ms[k];
      }
      chains := chains + [c];
    }
  }

  lemma {:induction false} JoinedAllowed(licenses: seq<string>)
    requires forall k :: 0 <= k < |licenses| ==> AllowedText(licenses[k])
    ensures forall k :: 0 <= k < |Joined(licenses)| ==> AllowedChar(Joined(licenses)[k])
  {
    if licenses != [] {
      assert AllowedText(licenses[0]);
      assert forall k :: 0 <= k < |Parenthesised(licenses[0])| ==> AllowedChar(Parenthesised(licenses[0])[k]);
      JoinedAllowed(licenses[1..]);
      assert forall k :: 0 <= k < 5 ==> AllowedChar(" AND "[k]);
    }
  }

  /** A list of parsing values is assessed as their combination exactly when the joined text fits. */
  lemma JoinedAssessment(f: Families, licenses: seq<string>, ms: seq<Assessment>)
    requires |ms| == |licenses| > 0 && forall k :: 0 <= k < |ms| ==> Assess(f, licenses[k]) == Some(ms[k])
    ensures Assess(f, Joined(licenses)) == if JoinedFits(licenses) then Some(CombineAll(ms)) else None
  {
    hide Tokens, Scan, Joined, JoinedTokens, ChainTokens, ChainMeaning, JoinedChain;
    var chains := ParsedTexts(f, licenses, ms);
    JoinedTokenized(licenses);
    JoinedChainTokens(licenses, chains);
    JoinedChainMeaning(f, chains, ms);
    ScanJoined(licenses);
    JoinedAllowed(licenses);
    ReadPrinted(f, JoinedChain(chains));
  }

  // ----- which lists can be read value by value -----

  /** A value whose own parentheses balance and whose words are identifiers. */
  predicate Closed(v: string) {
    Scan(Tokens(v), 0) == Some(0)
  }

  /** Scanned tokens contain only identifiers as words. */
  lemma {:induction false} ScannedWords(ts: seq<Token>, depth: nat)
    requires Scan(ts, depth).Some?
    ensures forall k :: 0 <= k < |ts| && ts[k].Word? ==> Identifier(ts[k].text)
    decreases |ts|
  {
    hide Identifier;
    if ts != [] {
      match ts[0]
      case Open => ScannedWords(ts[1..], depth + 1);
      case Close => ScannedWords(ts[1..], depth - 1);
      case _ => ScannedWords(ts[1..], depth);
      assert forall k :: 1 <= k < |ts| ==> ts[k] == ts[1..][k - 1];
    }
  }

  ghost predicate Named(ts: seq<Token>) {
    forall k :: 0 <= k < |ts| && ts[k].Word? ==> Identifier(ts[k].text)
  }

  lemma NamedParts(a: seq<Token>, b: seq<Token>)
    requires Named(a + b)
    ensures Named(a) && Named(b)
  {
    hide Identifier;
    forall k | 0 <= k < |a| && a[k].Word? ensures Identifier(a[k].text) { assert (a + b)[k] == a[k]; }
    forall k | 0 <= k < |b| && b[k].Word? ensures Identifier(b[k].text) { assert (a + b)[|a| + k] == b[k]; }
  }

  lemma {:induction false} NamedAtom(a: Atom)
    requires Named(AtomTokens(a))
    ensures AtomIdentifiers(a)
    decreases a, 0
  {
    hide Identifier;
    var ts := AtomTokens(a);
    match a
    case License(id, e) =>
      assert ts[0] == Word(id) && (e.Some? ==> ts[2] == Word(e.value));
    case Group(c) =>
      hide Named, AtomTokens, ChainTokens;
      assert ts == [Open] + (ChainTokens(c) + [Close]) by { GroupTokens(c); }
      NamedParts([Open], ChainTokens(c) + [Close]);
      NamedParts(ChainTokens(c), [Close]);
      NamedChain(c);
  }

  lemma GroupTokens(c: Chain)
    ensures AtomTokens(Group(c)) == [Open] + (ChainTokens(c) + [Close])
  {
  }

  lemma {:induction false} NamedChain(c: Chain)
    requires Named(ChainTokens(c))
    ensures ChainIdentifiers(c)
    decreases c, 1
  {
    hide Identifier, Named, AtomTokens;
    match c
    case Last(a) => NamedAtom(a);
    case More(a, op, rest) =>
      NamedParts(AtomTokens(a), op.Tokens() + ChainTokens(rest));
      NamedParts(op.Tokens(), ChainTokens(rest));
      NamedAtom(a);
      NamedChain(rest);
  }

  /** Closed tokens end at the first parenthesis that closes more than they opened. */
  lemma ClosedPrefix(a: seq<Token>, b: seq<Token>, x: seq<Token>, y: seq<Token>)
    requires Scan(a, 0) == Some(0) && Scan(b, 0) == Some(0) && a + [Close] + x == b + [Close] + y
    ensures a == b && x == y
  {
    var s, t := a + [Close] + x, b + [Close] + y;
    NotLonger(a, b, x, y);
    NotLonger(b, a, y, x);
    assert a == s[..|a|] && b == t[..|b|];
    assert x == s[|a| + 1..] && y == t[|b| + 1..];
  }

  lemma ShorterIsPrefix<T>(a: seq<T>, b: seq<T>, c: T, x: seq<T>, y: seq<T>)
    requires a + [c] + x == b + [c] + y && |a| < |b|
    ensures b == a + ([c] + b[|a| + 1..])
  {
    var s := a + [c] + x;
    assert s[..|a|] == a && s[|a|] == c;
    assert b == s[..|b|];
    assert s[..|b|][..|a|] == s[..|a|] && s[..|b|][|a|] == s[|a|];
    assert b == b[..|a|] + ([b[|a|]] + b[|a| + 1..]);
  }

  lemma NotLonger(a: seq<Token>, b: seq<Token>, x: seq<Token>, y: seq<Token>)
    requires Scan(a, 0) == Some(0) && Scan(b, 0) == Some(0) && a + [Close] + x == b + [Close] + y
    ensures |b| <= |a|
  {
    hide Scan;
    if |a| < |b| {
      ShorterIsPrefix(a, b, Close, x, y);
      var rest := b[|a| + 1..];
      ScanAppend(a, [Close] + rest, 0);
      NoClose(rest);
      assert false;
    }
  }

  lemma NoClose(rest: seq<Token>)
    ensures Scan([Close] + rest, 0) == None
  {
  }

  /** A chain that starts with a group, in parts: the group's inside and what follows it. */
  lemma FirstGroup(c: Chain) returns (inner: Chain, tail: seq<Token>)
    requires ChainTokens(c)[0] == Open
    ensures ChainTokens(c) == [Open] + (ChainTokens(inner) + [Close] + tail)
    ensures c.Last? ==> tail == []
    ensures c.More? ==> tail == c.operator.Tokens() + ChainTokens(c.rest)
    ensures c.atom == Group(inner)
  {
    assert AtomTokens(c.atom)[0] == Open;
    inner := c.atom.chain;
    tail := if c.Last? then [] else c.operator.Tokens() + ChainTokens(c.rest);
    GroupTokens(inner);
  }

  lemma AndTail(c: Chain, tail: seq<Token>, rest: seq<Token>)
    requires c.More? && tail == c.operator.Tokens() + ChainTokens(c.rest) && tail == [And] + rest
    ensures ChainTokens(c.rest) == rest
  {
    assert tail[0] == And;
    assert c.operator == AndOperator;
    assert tail[1..] == rest && tail[1..] == ChainTokens(c.rest);
  }

  /** If the list reads as an expression, so does every closed value of a list of closed values. */
  lemma {:induction false} PartsPrinted(licenses: seq<string>, c: Chain, k: nat) returns (part: Chain)
    requires k < |licenses| && ChainTokens(c) == JoinedTokens(licenses)
    requires ChainIdentifiers(c) && ChainNesting(c) <= MAX_DEPTH
    requires forall j :: 0 <= j < |licenses| ==> Closed(licenses[j])
    ensures ChainTokens(part) == Tokens(licenses[k])
    decreases |licenses|
  {
    hide Tokens, Scan, ChainTokens, ChainIdentifiers, ChainNesting;
    var ts, rest := Tokens(licenses[0]), licenses[1..];
    var after := if rest == [] then [] else [And] + JoinedTokens(rest);
    assert JoinedTokens(licenses) == [Open] + (ts + [Close] + after) by { FirstPart(licenses); }
    var inner, tail := FirstGroup(c);
    assert ChainTokens(inner) + [Close] + tail == ChainTokens(c)[1..] == ts + [Close] + after;
    GroupFits(c, inner);
    ScanChain(inner, 0);
    ClosedPrefix(ChainTokens(inner), ts, tail, after);
    if k == 0 {
      part := inner;
    } else {
      assert c.More?;
      AndTail(c, tail, JoinedTokens(rest));
      RestFits(c);
      part := PartsPrinted(rest, c.rest, k - 1);
    }
  }

  lemma FirstPart(licenses: seq<string>)
    requires licenses != []
    ensures JoinedTokens(licenses) == [Open] + (Tokens(licenses[0]) + [Close]
      + if licenses[1..] == [] then [] else [And] + JoinedTokens(licenses[1..]))
  {
    hide Tokens;
  }

  lemma GroupFits(c: Chain, inner: Chain)
    requires c.atom == Group(inner) && ChainIdentifiers(c) && ChainNesting(c) <= MAX_DEPTH
    ensures ChainIdentifiers(inner) && ChainNesting(inner) <= MAX_DEPTH
  {
    assert AtomNesting(c.atom) == 1 + ChainNesting(inner) && AtomIdentifiers(c.atom) == ChainIdentifiers(inner);
  }

  lemma RestFits(c: Chain)
    requires c.More? && ChainIdentifiers(c) && ChainNesting(c) <= MAX_DEPTH
    ensures ChainIdentifiers(c.rest) && ChainNesting(c.rest) <= MAX_DEPTH
  {
  }

  /** The limits on characters and tokens hold for every value of a list that meets them. */
  lemma {:induction false} PartWithin(licenses: seq<string>, k: nat)
    requires k < |licenses|
    ensures |licenses[k]| <= |Joined(licenses)| && |Tokens(licenses[k])| <= |JoinedTokens(licenses)|
    ensures (forall j :: 0 <= j < |Joined(licenses)| ==> AllowedChar(Joined(licenses)[j])) ==>
      forall j :: 0 <= j < |licenses[k]| ==> AllowedChar(licenses[k][j])
    decreases |licenses|
  {
    hide Tokens, AllowedChar;
    var v, all := licenses[0], Joined(licenses);
    FirstPart(licenses);
    assert forall j :: 0 <= j < |v| ==> v[j] == all[1 + j];
    if k > 0 {
      var rest := Joined(licenses[1..]);
      PartWithin(licenses[1..], k - 1);
      assert all == Parenthesised(v) + " AND " + rest;
      assert forall j :: 0 <= j < |rest| ==> rest[j] == all[|v| + 7 + j];
    }
  }

  lemma AssessedChain(f: Families, text: string) returns (c: Chain)
    requires Assess(f, text).Some?
    ensures ChainTokens(c) == Tokens(text) && ChainIdentifiers(c) && ChainNesting(c) <= MAX_DEPTH
  {
    hide Tokens, Scan, AllowedText, Parse;
    ParsesExactlyPrints(f, Tokens(text));
    c :| ChainTokens(c) == Tokens(text);
    ScannedWords(Tokens(text), 0);
    NamedChain(c);
    ScanChain(c, 0);
  }

  /** A word of letters, digits, points and dashes. */
  ghost predicate Name(s: string) {
    s != "" && forall k :: 0 <= k < |s| ==> 'A' <= s[k] <= 'Z' || '0' <= s[k] <= '9' || s[k] == '.' || s[k] == '-'
  }

  ghost predicate ReferenceTo(w: string, document: string, license: string) {
    w == "DOCUMENTREF-" + document + ":LICENSEREF-" + license && Name(document) && Name(license)
  }

  /** An identifier is a name with at most one plus after it, or a reference into a document. */
  lemma IdentifierExact(w: string)
    ensures Identifier(w) <==>
      || Name(w) || (exists name :: w == name + "+" && Name(name))
      || exists document, license :: ReferenceTo(w, document, license)
  {
    if ':' in w {
      ReferenceExact(w);
      if Name(w) { NamePlain(w); }
      if name :| w == name + "+" && Name(name) { NamePlain(name); }
    } else {
      forall document, license ensures !ReferenceTo(w, document, license) {
        if ReferenceTo(w, document, license) { ReferenceColon(w, document, license); }
      }
      PlusAtEnd(w);
      forall name | w == name + "+" ensures Base(w) == name { assert w[|w| - 1] == '+' && w[..|w| - 1] == name; }
      if Name(w) { NamePlain(w); }
      if Identifier(w) && Base(w) != w { assert w == Base(w) + "+" && Name(Base(w)); }
    }
  }

  lemma NamePlain(name: string)
    requires Name(name)
    ensures ':' !in name && '+' !in name && Base(name) == name && AllIdChars(name)
  {
  }

  lemma ReferenceParts(s: string, prefix: string)
    ensures Reference(s, prefix) <==> |s| >= |prefix| && s == prefix + s[|prefix|..] && Name(s[|prefix|..])
  {
    if |s| >= |prefix| {
      var rest := s[|prefix|..];
      assert s == s[..|prefix|] + rest;
      if s == prefix + rest { assert s[..|prefix|] == prefix; }
      if AllIdChars(rest) { forall k | 0 <= k < |rest| ensures IdChar(rest[k]) {} }
    }
  }

  lemma ReferenceColon(w: string, document: string, license: string)
    requires ReferenceTo(w, document, license)
    ensures var k := |"DOCUMENTREF-" + document|;
      k < |w| && w[k] == ':' && w[..k] == "DOCUMENTREF-" + document && w[k + 1..] == "LICENSEREF-" + license
  {
    var a, b := "DOCUMENTREF-" + document, "LICENSEREF-" + license;
    assert w == a + (":" + b);
  }

  lemma ReferenceRead(w: string, k: nat) returns (document: string, license: string)
    requires k < |w| && w[k] == ':' && Reference(w[..k], "DOCUMENTREF-") && Reference(w[k + 1..], "LICENSEREF-")
    ensures ReferenceTo(w, document, license)
  {
    hide Reference, Name;
    var a, b := w[..k], w[k + 1..];
    ReferenceParts(a, "DOCUMENTREF-");
    ReferenceParts(b, "LICENSEREF-");
    document, license := a[12..], b[11..];
    assert w == a + ":" + b;
    ColonText(document, license);
  }

  lemma ColonText(document: string, license: string)
    ensures "DOCUMENTREF-" + document + ":" + ("LICENSEREF-" + license)
         == "DOCUMENTREF-" + document + ":LICENSEREF-" + license
  {
    assert ":" + ("LICENSEREF-" + license) == ":LICENSEREF-" + license;
  }

  lemma ReferenceWritten(w: string, document: string, license: string)
    requires ReferenceTo(w, document, license)
    ensures var k := |"DOCUMENTREF-" + document|;
      && k < |w| && w[k] == ':'
      && Reference(w[..k], "DOCUMENTREF-") && Reference(w[k + 1..], "LICENSEREF-")
  {
    hide Reference, Name;
    ReferenceColon(w, document, license);
    var a, b := "DOCUMENTREF-" + document, "LICENSEREF-" + license;
    ReferenceParts(a, "DOCUMENTREF-");
    ReferenceParts(b, "LICENSEREF-");
    assert a[12..] == document && b[11..] == license;
  }

  lemma ReferenceExact(w: string)
    requires ':' in w
    ensures Identifier(w) <==> exists document, license :: ReferenceTo(w, document, license)
  {
    hide Reference, ReferenceTo;
    if Identifier(w) {
      var k :| 0 <= k < |w| && w[k] == ':' && Reference(w[..k], "DOCUMENTREF-") && Reference(w[k + 1..], "LICENSEREF-");
      var document, license := ReferenceRead(w, k);
    }
    if document, license :| ReferenceTo(w, document, license) { ReferenceWritten(w, document, license); }
  }

  /** Letters, digits, the punctuation of identifiers, parentheses and white space. */
  ghost predicate Permitted(c: char) {
    || ('a' <= c && c <= 'z') || ('A' <= c && c <= 'Z') || ('0' <= c && c <= '9')
    || c == '.' || c == '-' || c == '+' || c == ':' || c == '(' || c == ')'
    || c == ' ' || ('\t' <= c && c <= '\r')
  }

  lemma PermittedIs(c: char)
    ensures AllowedChar(c) <==> Permitted(c)
    ensures Permitted(c) ==> (WordChar(c) <==> c != '(' && c != ')' && c != ' ' && !('\t' <= c <= '\r'))
  {
  }

  /**
   Exactly which texts are assessed: short texts of the permitted characters whose tokens, at most
   256 of them, print an expression of identifiers that nests at most 32 deep.
   */
  lemma AssessExact(f: Families, text: string)
    ensures Assess(f, text).Some? <==>
      && |text| <= 4096 && (forall k :: 0 <= k < |text| ==> Permitted(text[k])) && |Tokens(text)| <= 256
      && exists c :: ChainTokens(c) == Tokens(text) && ChainIdentifiers(c) && ChainNesting(c) <= 32
  {
    hide Tokens, Scan, Parse, AllowedChar, Permitted, ChainTokens, ChainIdentifiers, ChainNesting;
    forall c ensures AllowedChar(c) <==> Permitted(c) { PermittedIs(c); }
    if Assess(f, text).Some? {
      var c := AssessedChain(f, text);
    }
    if c :| ChainTokens(c) == Tokens(text) && ChainIdentifiers(c) && ChainNesting(c) <= 32 {
      ScanChain(c, 0);
      ReadPrinted(f, c);
    }
  }

  lemma PartAssessed(f: Families, licenses: seq<string>, k: nat)
    requires k < |licenses| && Assess(f, Joined(licenses)).Some?
    requires forall j :: 0 <= j < |licenses| ==> Closed(licenses[j])
    ensures Assess(f, licenses[k]).Some?
  {
    hide Tokens, Scan, Parse, Joined, JoinedTokens, ChainTokens, ChainMeaning, ChainIdentifiers, ChainNesting;
    JoinedTokenized(licenses);
    var c := AssessedChain(f, Joined(licenses));
    var part := PartsPrinted(licenses, c, k);
    PartWithin(licenses, k);
    ReadPrinted(f, part);
    assert Closed(licenses[k]);
  }

  /**
   A list that is assessed is assessed value by value exactly when the parentheses of every
   value balance on their own.
   */
  lemma JoinedPartsParse(f: Families, licenses: seq<string>)
    requires licenses != [] && Assess(f, Joined(licenses)).Some?
    ensures (forall k :: 0 <= k < |licenses| ==> Assess(f, licenses[k]).Some?)
       <==> (forall k :: 0 <= k < |licenses| ==> Closed(licenses[k]))
  {
    hide Tokens, Scan, Parse, Joined, AllowedText;
    if forall k :: 0 <= k < |licenses| ==> Closed(licenses[k]) {
      forall k | 0 <= k < |licenses| ensures Assess(f, licenses[k]).Some? { PartAssessed(f, licenses, k); }
    }
    if forall k :: 0 <= k < |licenses| ==> Assess(f, licenses[k]).Some? {
      forall k | 0 <= k < |licenses| ensures Closed(licenses[k]) { assert Assess(f, licenses[k]).Some?; }
    }
  }

  function AssessAll(f: Families, licenses: seq<string>): Option<seq<Assessment>> {
    if licenses == [] then Some([])
    else
      match (Assess(f, licenses[0]), AssessAll(f, licenses[1..]))
      case (Some(m), Some(ms)) => Some([m] + ms)
      case _ => None
  }

  lemma {:induction false} AssessAllExact(f: Families, licenses: seq<string>)
    ensures AssessAll(f, licenses).Some? <==> forall k :: 0 <= k < |licenses| ==> Assess(f, licenses[k]).Some?
    ensures AssessAll(f, licenses).Some? ==>
      |AssessAll(f, licenses).value| == |licenses| &&
      forall k :: 0 <= k < |licenses| ==> Assess(f, licenses[k]) == Some(AssessAll(f, licenses).value[k])
    decreases |licenses|
  {
    hide Assess;
    if licenses != [] {
      AssessAllExact(f, licenses[1..]);
      assert forall k :: 1 <= k < |licenses| ==> licenses[k] == licenses[1..][k - 1];
      assert forall k :: 0 <= k < |licenses| - 1 ==> licenses[k + 1] == licenses[1..][k];
    }
  }

  /**
   For values with balanced parentheses the list is assessed exactly as the combination of its
   values, within the limits.
   */
  lemma ClosedListExact(f: Families, licenses: seq<string>)
    requires licenses != [] && forall k :: 0 <= k < |licenses| ==> Closed(licenses[k])
    ensures Assess(f, Joined(licenses)) ==
      match AssessAll(f, licenses)
      case Some(ms) => if ms != [] && JoinedFits(licenses) then Some(CombineAll(ms)) else None
      case None => None
  {
    hide Assess, Joined, JoinedFits, Closed, CombineAll;
    AssessAllExact(f, licenses);
    var all := AssessAll(f, licenses);
    if all.Some? {
      JoinedAssessment(f, licenses, all.value);
    } else if Assess(f, Joined(licenses)).Some? {
      JoinedPartsParse(f, licenses);
      assert false;
    }
  }

  /** A value that does not parse alone can still join to something that parses. */
  lemma PartsMustParse(f: Families)
    ensures Assess(f, "A)(B") == None
    ensures Assess(f, Joined(["A)(B"])) == Some(Combine(LicenseMeaning(f, "A", false), LicenseMeaning(f, "B", false)))
  {
    hide Parse, ChainTokens, Tokens, Scan, AllowedText, Combine, LicenseMeaning, ChainMeaning, Identifier;
    hide ChainIdentifiers;
    var v := "A)(B";
    var joined := [Open, Word("A"), Close, Open, Word("B"), Close];
    PartTokens();
    PartUnbalanced();
    JoinedTokenized([v]);
    assert JoinedTokens([v]) == joined;
    PartPrint(f, joined);
    ScanChain(More(Group(Last(License("A", None))), Beside, Last(Group(Last(License("B", None))))), 0);
    PartAllowed();
  }

  lemma PartUnbalanced()
    ensures Scan([Word("A"), Close, Open, Word("B")], 0) == None
  {
    var ts := [Word("A"), Close, Open, Word("B")];
    assert ts[1..] == [Close, Open, Word("B")];
    assert Scan([Close, Open, Word("B")], 0) == None;
  }

  lemma PartAllowed()
    ensures AllowedText(Joined(["A)(B"]))
  {
    assert Joined(["A)(B"]) == "(A)(B)";
  }

  lemma PartTokens()
    ensures Tokens("A)(B") == [Word("A"), Close, Open, Word("B")]
  {
    var s := Upper("A)(B");
    assert s == "A)(B";
    assert s[1..] == ")(B" && ")(B"[1..] == "(B" && "(B"[1..] == "B" && "B"[1..] == "";
    assert WordRun(")(B") == 0 && WordRun(s) == 1 && WordRun("") == 0 && WordRun("B") == 1;
    assert s[..1] == "A" && "B"[..1] == "B";
    assert Tokenize("") == [];
    assert Tokenize("B") == [Word("B")];
    assert Tokenize("(B") == [Open, Word("B")];
    assert Tokenize(")(B") == [Close, Open, Word("B")];
  }

  lemma PartChain(joined: seq<Token>, c: Chain)
    requires joined == [Open, Word("A"), Close, Open, Word("B"), Close]
    requires c == More(Group(Last(License("A", None))), Beside, Last(Group(Last(License("B", None)))))
    ensures ChainTokens(c) == joined
  {
    var a, b := License("A", None), License("B", None);
    assert AtomTokens(a) == [Word("A")] && AtomTokens(b) == [Word("B")];
    assert AtomTokens(Group(Last(a))) == [Open, Word("A"), Close];
    assert AtomTokens(Group(Last(b))) == [Open, Word("B"), Close];
    assert ChainTokens(Last(Group(Last(b)))) == [Open, Word("B"), Close];
    assert ChainTokens(c) == [Open, Word("A"), Close] + ([] + [Open, Word("B"), Close]) == joined;
  }

  lemma PartPrint(f: Families, joined: seq<Token>)
    requires joined == [Open, Word("A"), Close, Open, Word("B"), Close]
    ensures var c := More(Group(Last(License("A", None))), Beside, Last(Group(Last(License("B", None)))));
      ChainTokens(c) == joined && Parse(f, joined) == Ok(ChainMeaning(f, c))
      && ChainMeaning(f, c) == Combine(LicenseMeaning(f, "A", false), LicenseMeaning(f, "B", false))
      && ChainIdentifiers(c) && ChainNesting(c) == 1
  {
    hide Parse, ChainTokens, Says, LicenseMeaning, Combine;
    var c := More(Group(Last(License("A", None))), Beside, Last(Group(Last(License("B", None)))));
    PartChain(joined, c);
    ReadPrinted(f, c);
  }

  // ----- printed texts -----

  function TokenText(t: Token): string {
    match t
    case Open => "("
    case Close => ")"
    case And => "AND"
    case Or => "OR"
    case With => "WITH"
    case Word(w) => w
  }

  /** The tokens of an expression with a space between any two. */
  function PrintText(ts: seq<Token>): string {
    if ts == [] then "" else if |ts| == 1 then TokenText(ts[0]) else TokenText(ts[0]) + (" " + PrintText(ts[1..]))
  }

  predicate PrintableWord(w: string) {
    w != "" && ToToken(w) == Word(w) && forall k :: 0 <= k < |w| ==> WordChar(w[k]) && UpperFixed(w[k])
  }

  predicate Printable(ts: seq<Token>) {
    forall k :: 0 <= k < |ts| ==> ts[k].Word? ==> PrintableWord(ts[k].text)
  }

  lemma {:induction false} WordRunAll(w: string)
    requires forall k :: 0 <= k < |w| ==> WordChar(w[k])
    ensures WordRun(w) == |w|
  {
    if w != "" { WordRunAll(w[1..]); }
  }

  lemma OneTokenText(t: Token)
    requires t.Word? ==> PrintableWord(t.text)
    ensures Tokens(TokenText(t)) == [t]
  {
    var s := TokenText(t);
    assert Upper(s) == s;
    assert Tokenize("") == [];
    if t.Open? || t.Close? {
      assert s[1..] == "" && !WordChar(s[0]);
      TokenizeStep(s);
    } else {
      assert forall k :: 0 <= k < |s| ==> WordChar(s[k]);
      WordRunAll(s);
      assert s[..|s|] == s && s[|s|..] == "";
      TokenizeStep(s);
    }
  }

  lemma {:induction false} PrintedTokens(ts: seq<Token>)
    requires Printable(ts)
    ensures Tokens(PrintText(ts)) == ts
    decreases |ts|
  {
    hide Tokens, PrintableWord, TokenText;
    if ts == [] {
      NoTokens();
    } else {
      OneTokenText(ts[0]);
      if |ts| > 1 {
        var rest := PrintText(ts[1..]);
        PrintedTokens(ts[1..]);
        SpaceToken(rest);
        TokensAppend(TokenText(ts[0]), " " + rest);
      }
    }
  }

  lemma SpaceToken(rest: string)
    ensures Tokens(" " + rest) == Tokens(rest)
  {
    UpperAppend(" ", rest);
    var u := Upper(" " + rest);
    assert u[0] == ' ' && u[1..] == Upper(rest);
    TokenizeStep(u);
  }

  /** Printing an expression and assessing the text gives its meaning exactly within the limits. */
  lemma PrintedExpression(f: Families, c: Chain)
    requires ChainIdentifiers(c) && Printable(ChainTokens(c)) && AllowedText(PrintText(ChainTokens(c)))
    ensures Assess(f, PrintText(ChainTokens(c)))
         == if |ChainTokens(c)| <= MAX_TOKENS && ChainNesting(c) <= MAX_DEPTH then Some(ChainMeaning(f, c)) else None
    ensures Says(f, ChainTokens(c), ChainMeaning(f, c))
  {
    hide Tokens, Scan, Parse, ChainTokens, ChainMeaning, ChainNesting, Printable, AllowedText;
    var ts := ChainTokens(c);
    PrintedTokens(ts);
    ScanChain(c, 0);
    ReadPrinted(f, c);
  }

  // ----- the license families -----

  const STRONG := {
    "AGPL", "AGPL1", "AGPL3", "AGPL-1.0", "AGPL-1.0-ONLY", "AGPL-1.0-OR-LATER",
    "AGPL-3.0", "AGPL-3.0-ONLY", "AGPL-3.0-OR-LATER"}

  const COPYLEFT := {
    "GPL", "GPL1", "GPL2", "GPL3", "LGPL", "LGPL2", "LGPL3", "LGPL2.1",
    "GPL-1.0", "GPL-1.0-ONLY", "GPL-1.0-OR-LATER", "GPL-2.0", "GPL-2.0-ONLY", "GPL-2.0-OR-LATER",
    "GPL-3.0", "GPL-3.0-ONLY", "GPL-3.0-OR-LATER", "LGPL-2.0", "LGPL-2.0-ONLY", "LGPL-2.0-OR-LATER",
    "LGPL-2.1", "LGPL-2.1-ONLY", "LGPL-2.1-OR-LATER", "LGPL-3.0", "LGPL-3.0-ONLY", "LGPL-3.0-OR-LATER",
    "MPL", "MPL-1.0", "MPL-1.1", "MPL-2.0", "MPL-2.0-NO-COPYLEFT-EXCEPTION"}

  const PERMISSIVE := {
    "MIT", "MIT-0", "ISC", "UNLICENSE", "CC0", "CC0-1.0", "0BSD", "BSD", "BSD-2-CLAUSE", "BSD-3-CLAUSE",
    "BSD-4-CLAUSE", "APACHE", "APACHE-1.0", "APACHE-1.1", "APACHE-2.0"}

  function FamilyOf(id: string): Category {
    if id in STRONG then StrongCopyleft
    else if id in COPYLEFT then Copyleft
    else if id in PERMISSIVE then Permissive
    else if id in {"PROPRIETARY", "COMMERCIAL"} then Proprietary
    else Unknown
  }

  /** The review marker of a package: set exactly when its list is refused or one of its licenses is in doubt. */
  lemma PackageReview(licenses: seq<string>)
    ensures var ts := Tokens(Joined(licenses)); var a := Assess(FamilyOf, Joined(licenses));
      a.Some? ==> Says(FamilyOf, ts, a.value)
  {
    hide Tokens, Scan, Parse, Joined, AllowedText, StrongestClaim, Doubtful;
    if Assess(FamilyOf, Joined(licenses)).Some? { ParsedSays(FamilyOf, Tokens(Joined(licenses))); }
  }

  /** The category and review marker of a package's license values. */
  method PackageAssessment(licenses: seq<string>) returns (category: Category, unresolved: bool)
    ensures licenses == [] ==> category == Unknown && unresolved
    ensures licenses != [] ==>
      Assessment(category, unresolved) ==
        match Assess(FamilyOf, Joined(licenses)) case Some(m) => m case None => REJECTED
    ensures Assess(FamilyOf, Joined(licenses)).Some? ==>
      Says(FamilyOf, Tokens(Joined(licenses)), Assessment(category, unresolved))
  {
    hide Assess, Says;
    var a := AdvisoryAssessment(FamilyOf, Joined(licenses));
    category := if licenses == [] then Unknown else a.category;
    unresolved := a.unresolved;
    if licenses == [] { NothingToAssess(FamilyOf); }
  }

  lemma NothingToAssess(f: Families)
    ensures Assess(f, Joined([])) == None
  {
    NoTokens();
  }
}
