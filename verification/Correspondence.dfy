/**
 The line correspondence between the base and the head version of one source file: lines kept
 by the diff, lines anchored by a function that kept its name and text, and lines that are gone.
 */
module Correspondence {
  import opened Prelude
  import opened Text
  import SourceBlocks
  import LcovReport

  type Counts = LcovReport.Counts

  // ----- coverage regions -----

  datatype Region = Region(lineStart: int, colStart: int, lineEnd: int, colEnd: int, count: int, fileId: int,
      expandedId: int, kind: int)

  datatype Function = Function(name: string, filenames: seq<string>, regions: seq<Region>)

  predicate Plain(r: Region) {
    r.fileId == 0 && r.expandedId == 0 && r.kind == 0
  }

  predicate Has(r: Region, line: int) {
    r.lineStart <= line <= r.lineEnd
  }

  /** The file of a region; an index below zero counts from the end. */
  function FileOf(f: Function, r: Region): Option<string> {
    if 0 <= r.fileId < |f.filenames| then Some(f.filenames[r.fileId])
    else if -|f.filenames| <= r.fileId < 0 then Some(f.filenames[|f.filenames| + r.fileId])
    else None
  }

  function Named(fs: seq<Function>, name: string): seq<Function> {
    Filter(fs, (f: Function) => f.name == name)
  }

  predicate Lists(files: map<string, string>, f: Function, name: string) {
    exists k :: 0 <= k < |f.filenames| && Lookup(files, f.filenames[k]) == Some(name)
  }

  function OwnersOf(fs: seq<Function>, files: map<string, string>, name: string): seq<Function> {
    Filter(fs, (f: Function) => Lists(files, f, name))
  }

  function MinStart(rs: seq<Region>): (m: int)
    requires rs != []
    ensures (forall k :: 0 <= k < |rs| ==> m <= rs[k].lineStart) && exists k :: 0 <= k < |rs| && m == rs[k].lineStart
  {
    if |rs| == 1 then rs[0].lineStart
    else
      var m := MinStart(rs[1..]);
      assert forall k :: 1 <= k < |rs| ==> rs[k] == rs[1..][k - 1];
      if rs[0].lineStart < m then rs[0].lineStart else m
  }

  function MaxEnd(rs: seq<Region>): (m: int)
    requires rs != []
    ensures (forall k :: 0 <= k < |rs| ==> m >= rs[k].lineEnd) && exists k :: 0 <= k < |rs| && m == rs[k].lineEnd
  {
    if |rs| == 1 then rs[0].lineEnd
    else
      var m := MaxEnd(rs[1..]);
      assert forall k :: 1 <= k < |rs| ==> rs[k] == rs[1..][k - 1];
      if rs[0].lineEnd > m then rs[0].lineEnd else m
  }

  // ----- the diff -----

  datatype Tag = Equal | Delete | Insert | Replace

  datatype Op = Op(tag: Tag, a: nat, b: nat, c: nat, d: nat)

  ghost predicate OpOk(was: seq<string>, now: seq<string>, op: Op) {
    && op.a <= op.b <= |was| && op.c <= op.d <= |now|
    && (op.tag == Equal ==> op.a < op.b && was[op.a..op.b] == now[op.c..op.d])
    && (op.tag == Delete ==> op.c == op.d)
    && (op.tag == Insert ==> op.a == op.b)
  }

  /** What any diff guarantees: the operations cover both files from end to end, and equal parts are equal. */
  ghost predicate ValidOps(was: seq<string>, now: seq<string>, ops: seq<Op>) {
    && (forall k :: 0 <= k < |ops| ==> OpOk(was, now, ops[k]))
    && (forall j, k :: 0 <= j && j + 1 == k && k < |ops| ==> ops[j].b == ops[k].a && ops[j].d == ops[k].c)
    && (if ops == [] then was == [] && now == []
        else ops[0].a == 0 && ops[0].c == 0 && ops[|ops| - 1].b == |was| && ops[|ops| - 1].d == |now|)
  }

  predicate Spans(op: Op, line: int) {
    op.a < line <= op.b
  }

  predicate Tagged(ops: seq<Op>, tag: Tag, line: int) {
    exists k :: 0 <= k < |ops| && ops[k].tag == tag && Spans(ops[k], line)
  }

  /** The run of lines from s on, paired with the lines from t on. */
  function Shift(s: int, t: int, n: nat): (m: map<int, int>)
    ensures forall i :: i in m <==> s <= i < s + n
    ensures forall i :: i in m ==> m[i] == i - s + t
  {
    map i | i in Interval(s, n) :: i - s + t
  }

  function OpPairs(op: Op): map<int, int>
    requires op.a <= op.b
  {
    if op.tag == Equal then Shift(op.a + 1, op.c + 1, op.b - op.a) else map[]
  }

  function OpDeletes(op: Op): set<int>
    requires op.a <= op.b
  {
    if op.tag == Delete then Interval(op.a + 1, op.b - op.a) else {}
  }

  predicate Ordered(ops: seq<Op>) {
    forall k :: 0 <= k < |ops| ==> ops[k].a <= ops[k].b
  }

  function Matched(ops: seq<Op>): map<int, int>
    requires Ordered(ops)
  {
    if ops == [] then map[] else Matched(ops[..|ops| - 1]) + OpPairs(ops[|ops| - 1])
  }

  function Deleted(ops: seq<Op>): set<int>
    requires Ordered(ops)
  {
    if ops == [] then {} else Deleted(ops[..|ops| - 1]) + OpDeletes(ops[|ops| - 1])
  }

  lemma {:induction false} DeletedExact(ops: seq<Op>, line: int)
    requires Ordered(ops)
    ensures line in Deleted(ops) <==> Tagged(ops, Delete, line)
  {
    if ops != [] {
      var n := |ops| - 1;
      DeletedExact(ops[..n], line);
      TaggedStep(ops, n, Delete, line);
      assert ops[..n + 1] == ops;
    }
  }

  lemma TaggedStep(ops: seq<Op>, n: nat, tag: Tag, line: int)
    requires n < |ops|
    ensures Tagged(ops[..n + 1], tag, line) <==>
      Tagged(ops[..n], tag, line) || (ops[n].tag == tag && Spans(ops[n], line))
  {
    if Tagged(ops[..n], tag, line) {
      var k :| 0 <= k < n && ops[..n][k].tag == tag && Spans(ops[..n][k], line);
      assert ops[..n + 1][k].tag == tag;
    }
    if ops[n].tag == tag && Spans(ops[n], line) { assert ops[..n + 1][n].tag == tag; }
    if Tagged(ops[..n + 1], tag, line) && !(ops[n].tag == tag && Spans(ops[n], line)) {
      var k :| 0 <= k < n + 1 && ops[..n + 1][k].tag == tag && Spans(ops[..n + 1][k], line);
      assert ops[..n][k].tag == tag;
    }
  }

  ghost predicate PairOf(ops: seq<Op>, line: int, image: int) {
    exists k :: 0 <= k < |ops| && ops[k].tag == Equal && Spans(ops[k], line) && image == line - ops[k].a + ops[k].c
  }

  lemma {:induction false} MatchedExact(ops: seq<Op>, line: int)
    requires Ordered(ops)
    ensures line in Matched(ops) <==> Tagged(ops, Equal, line)
    ensures line in Matched(ops) ==> PairOf(ops, line, Matched(ops)[line])
  {
    if ops != [] {
      var n := |ops| - 1;
      var init := ops[..n];
      MatchedExact(init, line);
      TaggedStep(ops, n, Equal, line);
      assert ops[..n + 1] == ops;
      if line in Matched(ops) {
        if line in OpPairs(ops[n]) {
          assert Spans(ops[n], line);
        } else {
          var k :| 0 <= k < |init| && init[k].tag == Equal && Spans(init[k], line)
            && Matched(init)[line] == line - init[k].a + init[k].c;
          assert ops[k].tag == Equal;
        }
      }
    }
  }

  lemma {:induction false} OpsAhead(was: seq<string>, now: seq<string>, ops: seq<Op>, j: nat, k: nat)
    requires ValidOps(was, now, ops) && j < k < |ops|
    ensures ops[j].b <= ops[k].a
    decreases k - j
  {
    assert ops[k - 1].b == ops[k].a;
    assert OpOk(was, now, ops[k - 1]);
    if j < k - 1 { OpsAhead(was, now, ops, j, k - 1); }
  }

  /** No line lies in two operations. */
  lemma OneOp(was: seq<string>, now: seq<string>, ops: seq<Op>, j: nat, k: nat, line: int)
    requires ValidOps(was, now, ops) && j < |ops| && k < |ops| && Spans(ops[j], line) && Spans(ops[k], line)
    ensures j == k
  {
    if j < k { OpsAhead(was, now, ops, j, k); }
    if k < j { OpsAhead(was, now, ops, k, j); }
  }

  /** Every line up to the end of an operation lies in one of the operations so far. */
  lemma {:induction false} SomeOp(was: seq<string>, now: seq<string>, ops: seq<Op>, k: nat, line: int)
    requires ValidOps(was, now, ops) && k < |ops| && 1 <= line <= ops[k].b
    ensures exists j :: 0 <= j <= k && Spans(ops[j], line)
  {
    if line > ops[k].a {
      assert Spans(ops[k], line);
    } else {
      assert k > 0;
      SomeOp(was, now, ops, k - 1, line);
    }
  }

  lemma ValidOrdered(was: seq<string>, now: seq<string>, ops: seq<Op>)
    requires ValidOps(was, now, ops)
    ensures Ordered(ops)
  {
    forall k | 0 <= k < |ops| ensures ops[k].a <= ops[k].b { assert OpOk(was, now, ops[k]); }
  }

  /** Each base line is in exactly one kind of operation, and never in an insertion. */
  lemma TagsPartition(was: seq<string>, now: seq<string>, ops: seq<Op>, line: int)
    requires ValidOps(was, now, ops) && 1 <= line <= |was|
    ensures Tagged(ops, Equal, line) || Tagged(ops, Delete, line) || Tagged(ops, Replace, line)
    ensures !(Tagged(ops, Equal, line) && Tagged(ops, Delete, line))
    ensures !(Tagged(ops, Equal, line) && Tagged(ops, Replace, line))
    ensures !(Tagged(ops, Delete, line) && Tagged(ops, Replace, line))
  {
    hide ValidOps;
    assert ops != [] && ops[|ops| - 1].b == |was| by { LastOp(was, now, ops); }
    SomeOp(was, now, ops, |ops| - 1, line);
    var j :| 0 <= j < |ops| && Spans(ops[j], line);
    forall k | 0 <= k < |ops| && Spans(ops[k], line) ensures k == j { OneOp(was, now, ops, j, k, line); }
    NotInsert(was, now, ops, j, line);
  }

  lemma LastOp(was: seq<string>, now: seq<string>, ops: seq<Op>)
    requires ValidOps(was, now, ops) && was != []
    ensures ops != [] && ops[|ops| - 1].b == |was|
  {
  }

  lemma NotInsert(was: seq<string>, now: seq<string>, ops: seq<Op>, j: nat, line: int)
    requires ValidOps(was, now, ops) && j < |ops| && Spans(ops[j], line)
    ensures ops[j].tag != Insert && 1 <= line <= |was|
  {
    assert OpOk(was, now, ops[j]);
  }

  lemma TagInside(was: seq<string>, now: seq<string>, ops: seq<Op>, tag: Tag, line: int)
    requires ValidOps(was, now, ops) && Tagged(ops, tag, line)
    ensures 1 <= line <= |was|
  {
    hide ValidOps;
    var k :| 0 <= k < |ops| && ops[k].tag == tag && Spans(ops[k], line);
    NotInsert(was, now, ops, k, line);
  }

  /** Two lines with the same text. */
  ghost predicate SameText(was: seq<string>, now: seq<string>, line: int, image: int) {
    1 <= line <= |was| && 1 <= image <= |now| && was[line - 1] == now[image - 1]
  }

  lemma EqualText(was: seq<string>, now: seq<string>, op: Op, line: int)
    requires OpOk(was, now, op) && op.tag == Equal && Spans(op, line)
    ensures SameText(was, now, line, line - op.a + op.c)
  {
    var i := line - 1 - op.a;
    assert was[op.a..op.b][i] == now[op.c..op.d][i];
  }

  lemma MatchedText(was: seq<string>, now: seq<string>, ops: seq<Op>, line: int)
    requires ValidOps(was, now, ops) && Ordered(ops) && line in Matched(ops)
    ensures SameText(was, now, line, Matched(ops)[line])
  {
    hide ValidOps, OpOk, SameText, Matched;
    MatchedExact(ops, line);
    var k :| 0 <= k < |ops| && ops[k].tag == Equal && Spans(ops[k], line)
      && Matched(ops)[line] == line - ops[k].a + ops[k].c;
    OpAt(was, now, ops, k);
    EqualText(was, now, ops[k], line);
  }

  lemma OpAt(was: seq<string>, now: seq<string>, ops: seq<Op>, k: nat)
    requires ValidOps(was, now, ops) && k < |ops|
    ensures OpOk(was, now, ops[k])
  {
  }

  // ----- anchors -----

  /** One file in both versions, with everything the comparison looks at. */
  datatype Context = Context(name: string, was: seq<string>, now: seq<string>, before: Counts, after: Counts,
                             baseFiles: map<string, string>, headFiles: map<string, string>,
                             base: seq<Function>, head: seq<Function>)

  datatype Candidate = Skip | Outside | Anchor(start: int, image: int, n: nat)

  predicate SoleFile(files: map<string, string>, f: Function, name: string) {
    |f.filenames| == 1 && Lookup(files, f.filenames[0]) == Some(name)
  }

  predicate AllPlain(f: Function) {
    f.regions != [] && forall k :: 0 <= k < |f.regions| ==> Plain(f.regions[k])
  }

  /** What a function of the base says about its lines: it anchors them if it still exists with the same text. */
  function CandidateOf(x: Context, owner: Function): (r: Candidate)
    ensures r.Anchor? ==>
      && 1 <= r.start && r.start + r.n - 1 <= |x.was| && 1 <= r.image && r.image + r.n - 1 <= |x.now|
      && x.was[r.start - 1..r.start - 1 + r.n] == x.now[r.image - 1..r.image - 1 + r.n]
  {
    var matches := Named(x.head, owner.name);
    if |Named(x.base, owner.name)| != 1 || |matches| != 1 then Skip
    else
      var current := matches[0];
      if !SoleFile(x.baseFiles, owner, x.name) || !SoleFile(x.headFiles, current, x.name) || !AllPlain(owner)
         || !AllPlain(current) then Skip
      else
        var start, end := MinStart(owner.regions), MaxEnd(owner.regions);
        var image, imageEnd := MinStart(current.regions), MaxEnd(current.regions);
        if !(1 <= start <= end <= |x.was| && 1 <= image <= imageEnd <= |x.now|) then Outside
        else if x.was[start - 1..end] == x.now[image - 1..imageEnd] then
          assert |x.was[start - 1..end]| == |x.now[image - 1..imageEnd]|;
          Anchor(start, image, end - start + 1)
        else Skip
  }

  predicate Agrees(m: map<int, int>, s: int, t: int, n: nat) {
    forall i :: i in m && s <= i < s + n ==> m[i] == i - s + t
  }

  function AnchorStep(x: Context, m: map<int, int>, owner: Function): Option<map<int, int>> {
    match CandidateOf(x, owner)
    case Skip => Some(m)
    case Outside => None
    case Anchor(s, t, n) => if Agrees(m, s, t, n) then Some(m + Shift(s, t, n)) else None
  }

  function Anchored(x: Context, owners: seq<Function>): Option<map<int, int>> {
    if owners == [] then Some(map[])
    else
      match Anchored(x, owners[..|owners| - 1])
      case None => None
      case Some(m) => AnchorStep(x, m, owners[|owners| - 1])
  }

  ghost predicate Pins(x: Context, owner: Function, line: int, image: int) {
    var c := CandidateOf(x, owner);
    c.Anchor? && c.start <= line < c.start + c.n && image == line - c.start + c.image
  }

  ghost predicate Pinned(x: Context, owners: seq<Function>, line: int, image: int) {
    exists k :: 0 <= k < |owners| && Pins(x, owners[k], line, image)
  }

  ghost predicate AllInside(x: Context, owners: seq<Function>) {
    forall k :: 0 <= k < |owners| ==> CandidateOf(x, owners[k]) != Outside
  }

  ghost predicate Compatible(x: Context, owners: seq<Function>) {
    forall l, s, t :: Pinned(x, owners, l, s) && Pinned(x, owners, l, t) ==> s == t
  }

  lemma PinnedStep(x: Context, owners: seq<Function>, l: int, s: int)
    requires owners != []
    ensures var n := |owners| - 1; Pinned(x, owners, l, s) <==> Pinned(x, owners[..n], l, s) || Pins(x, owners[n], l, s)
  {
    hide Pins;
    var n := |owners| - 1;
    assert owners == owners[..n] + [owners[n]];
    if Pinned(x, owners[..n], l, s) {
      var k :| 0 <= k < n && Pins(x, owners[..n][k], l, s);
      assert Pins(x, owners[k], l, s);
    }
  }

  ghost predicate Graph(x: Context, owners: seq<Function>, m: map<int, int>) {
    forall l, s :: (l in m && m[l] == s) <==> Pinned(x, owners, l, s)
  }

  /** The anchors do not depend on the order of the functions: they are all their pairs, if those agree. */
  lemma {:induction false} AnchorsExact(x: Context, owners: seq<Function>)
    ensures Anchored(x, owners).Some? <==> AllInside(x, owners) && Compatible(x, owners)
    ensures Anchored(x, owners).Some? ==> Graph(x, owners, Anchored(x, owners).value)
    decreases |owners|
  {
    hide CandidateOf, AnchorStep, Graph, Compatible;
    if owners == [] {
      NoAnchors(x);
    } else {
      var n := |owners| - 1;
      var init, last := owners[..n], owners[n];
      assert owners == init + [last];
      AnchorsExact(x, init);
      CompatibleFewer(x, owners);
      var m := Anchored(x, init);
      if m.Some? { AnchorStepExact(x, owners, m.value); }
    }
  }

  lemma NoAnchors(x: Context)
    ensures Graph(x, [], map[]) && Compatible(x, [])
  {
  }

  lemma CompatibleFewer(x: Context, owners: seq<Function>)
    requires owners != []
    ensures Compatible(x, owners) ==> Compatible(x, owners[..|owners| - 1])
  {
    hide Pinned;
    if Compatible(x, owners) {
      var init := owners[..|owners| - 1];
      forall l, s, t | Pinned(x, init, l, s) && Pinned(x, init, l, t) ensures s == t {
        PinnedStep(x, owners, l, s);
        PinnedStep(x, owners, l, t);
      }
    }
  }

  lemma AnchorStepExact(x: Context, owners: seq<Function>, m: map<int, int>)
    requires owners != [] && Graph(x, owners[..|owners| - 1], m)
    ensures var r := AnchorStep(x, m, owners[|owners| - 1]);
      && (r.Some? <==> CandidateOf(x, owners[|owners| - 1]) != Outside && Compatible(x, owners))
      && (r.Some? ==> Graph(x, owners, r.value))
  {
    hide CandidateOf, Pinned;
    var n := |owners| - 1;
    var c := CandidateOf(x, owners[n]);
    forall l, s ensures Pinned(x, owners, l, s) <==> (l in m && m[l] == s) || Pins(x, owners[n], l, s) {
      PinnedStep(x, owners, l, s);
    }
    if c.Anchor? && !Agrees(m, c.start, c.image, c.n) {
      var i :| i in m && c.start <= i < c.start + c.n && m[i] != i - c.start + c.image;
      assert Pins(x, owners[n], i, i - c.start + c.image);
      assert Pinned(x, owners, i, m[i]) && Pinned(x, owners, i, i - c.start + c.image);
    }
  }

  lemma PinnedText(x: Context, owners: seq<Function>, line: int, image: int)
    requires Pinned(x, owners, line, image)
    ensures SameText(x.was, x.now, line, image)
  {
    var k :| 0 <= k < |owners| && Pins(x, owners[k], line, image);
    AnchorText(x, owners[k], line, image);
  }

  lemma AnchorText(x: Context, owner: Function, line: int, image: int)
    requires Pins(x, owner, line, image)
    ensures SameText(x.was, x.now, line, image)
  {
    var c := CandidateOf(x, owner);
    hide CandidateOf;
    var i := line - c.start;
    assert x.was[c.start - 1..c.start - 1 + c.n][i] == x.now[c.image - 1..c.image - 1 + c.n][i];
  }

  // ----- closing lines of deleted functions -----

  function At(counts: Counts, line: int): nat {
    if line in counts then counts[line] else 0
  }

  /** Whether one of the regions of this file holds the line; none if a region names no file before that is known. */
  function Holds(x: Context, f: Function, regions: seq<Region>, line: int): Option<bool> {
    if regions == [] then Some(false)
    else
      match FileOf(f, regions[0])
      case None => None
      case Some(path) =>
        if Lookup(x.baseFiles, path) == Some(x.name) && Has(regions[0], line) then Some(true)
        else Holds(x, f, regions[1..], line)
  }

  function HoldersOf(x: Context, owners: seq<Function>, line: int): Option<seq<Function>> {
    if owners == [] then Some([])
    else
      var last := owners[|owners| - 1];
      match HoldersOf(x, owners[..|owners| - 1], line)
      case None => None
      case Some(fs) =>
        match Holds(x, last, last.regions, line)
        case None => None
        case Some(held) => Some(fs + if held then [last] else [])
  }

  predicate RegionGone(x: Context, gone: set<int>, r: Region, line: int) {
    && r.lineStart <= r.lineEnd && (r.lineStart == r.lineEnd || r.colEnd > 1) && Plain(r) && r.count >= 0
    && forall l :: l in Interval(r.lineStart, r.lineEnd - r.lineStart + 1) ==> l in x.before && (l == line || l in gone)
  }

  /** The function is gone from the head and, apart from this line, so are all its lines. */
  predicate Removable(x: Context, gone: set<int>, f: Function, line: int) {
    && |Named(x.base, f.name)| == 1 && Named(x.head, f.name) == [] && |f.filenames| == 1
    && forall k :: 0 <= k < |f.regions| ==> RegionGone(x, gone, f.regions[k], line)
  }

  datatype Fate = Keep | Drop | Refuse

  function FateOf(x: Context, owners: seq<Function>, anchored: map<int, int>, gone: set<int>, line: int,
      image: int): Fate
    requires 1 <= line <= |x.was|
  {
    if line in anchored then Keep
    else if image !in anchored.Values && !(At(x.before, line) > 0 && image !in x.after) then Keep
    else if Strip(x.was[line - 1]) == "}" && line - 1 in gone then
      match HoldersOf(x, owners, line)
      case None => Refuse
      case Some(fs) => if |fs| == 1 && Removable(x, gone, fs[0], line) then Drop else Refuse
    else Refuse
  }

  datatype Pairing = Pairing(retained: map<int, int>, gone: set<int>)

  /** The kept lines in order: each stays, or is dropped as the end of a deleted function, or the file is refused. */
  function Sifted(x: Context, owners: seq<Function>, anchored: map<int, int>, matched: map<int, int>, deleted: set<int>,
      n: nat): Option<Pairing>
    requires n <= |x.was|
  {
    if n == 0 then Some(Pairing(matched, deleted - anchored.Keys))
    else
      match Sifted(x, owners, anchored, matched, deleted, n - 1)
      case None => None
      case Some(s) =>
        if n !in matched then Some(s)
        else
          match FateOf(x, owners, anchored, s.gone, n, matched[n])
          case Keep => Some(s)
          case Drop => Some(Pairing(s.retained - {n}, s.gone + {n}))
          case Refuse => None
  }

  // ----- the file as a whole -----

  predicate Covers(counts: Counts, op: Op) {
    exists l :: l in counts && Spans(op, l) && counts[l] > 0
  }

  /** A kept block with covered lines must be found once in each version, unless it runs to the end of both. */
  predicate BlockOk(x: Context, op: Op)
    requires op.a <= op.b <= |x.was|
  {
    || op.tag != Equal || x.was == x.now || !Covers(x.before, op)
    || (op.b == |x.was| && op.d == |x.now|)
    || (SourceBlocks.CountedOnce(x.was, x.was[op.a..op.b]) && SourceBlocks.CountedOnce(x.now, x.was[op.a..op.b]))
  }

  predicate LinesExist(x: Context) {
    (forall l :: l in x.before ==> l <= |x.was|) && (forall l :: l in x.after ==> l <= |x.now|)
  }

  ghost predicate Injective(m: map<int, int>) {
    forall i, j :: i in m && j in m && m[i] == m[j] ==> i == j
  }

  predicate StillCovered(x: Context, retained: map<int, int>) {
    forall l :: l in retained && At(x.before, l) > 0 ==> At(x.after, retained[l]) > 0
  }

  predicate NoNewGap(x: Context, retained: map<int, int>) {
    forall n :: n in x.after && x.after[n] == 0 ==> n in retained.Values
  }

  ghost predicate OpsInside(x: Context, ops: seq<Op>) {
    Ordered(ops) && forall k :: 0 <= k < |ops| ==> ops[k].b <= |x.was|
  }

  /** The correspondence of a file, or nothing if the file is refused. */
  ghost function Compared(x: Context, owners: seq<Function>, ops: seq<Op>): Option<Pairing>
    requires OpsInside(x, ops)
  {
    if !LinesExist(x) || exists k :: 0 <= k < |ops| && !BlockOk(x, ops[k]) then None
    else
      match Anchored(x, owners)
      case None => None
      case Some(anchored) =>
        match Sifted(x, owners, anchored, Matched(ops), Deleted(ops), |x.was|)
        case None => None
        case Some(s) =>
          var retained := s.retained + anchored;
          if Injective(retained) && StillCovered(x, retained) && NoNewGap(x, retained)
          then Some(Pairing(retained, s.gone))
          else None
  }

  lemma {:induction false} ValuesBounded(m: map<int, int>)
    ensures |m.Values| <= |m|
    ensures |m.Values| == |m| <==> Injective(m)
    decreases |m|
  {
    if m == map[] {
    } else {
      var k := SomeKey(m);
      ValuesSplit(m, k);
      ValuesBounded(m - {k});
    }
  }

  lemma ValuesSplit(m: map<int, int>, k: int)
    requires k in m
    ensures m.Values == (m - {k}).Values + {m[k]} && |m| == |m - {k}| + 1
    ensures Injective(m) <==> Injective(m - {k}) && m[k] !in (m - {k}).Values
  {
    var rest := m - {k};
    assert m.Keys == rest.Keys + {k};
    forall v ensures v in m.Values <==> v in rest.Values || v == m[k] {
      if v in m.Values {
        var j := KeyFor(m, v);
        if j != k { assert j in rest && rest[j] == v; }
      }
      if v in rest.Values {
        var j := KeyFor(rest, v);
        assert j in m && m[j] == v;
      }
      if v == m[k] { assert k in m && m[k] == v; }
    }
    if Injective(rest) && m[k] !in rest.Values {
      forall i, j | i in m && j in m && m[i] == m[j] ensures i == j {
        if i != k { assert i in rest && rest[i] in rest.Values; }
        if j != k { assert j in rest && rest[j] in rest.Values; }
      }
    }
    if Injective(m) {
      forall j | j in rest ensures rest[j] != m[k] {}
    }
  }

  // ----- the comparison, step by step -----

  lemma PinStep(m: map<int, int>, s: int, t: int, i: nat)
    requires Agrees(m, s, t, i)
    ensures s + i in m + Shift(s, t, i) <==> s + i in m
    ensures s + i in m ==> (m + Shift(s, t, i))[s + i] == m[s + i]
    ensures Agrees(m, s, t, i + 1) <==> (s + i in m ==> m[s + i] == t + i)
  {
    assert s + i !in Shift(s, t, i);
  }

  lemma ShiftStep(m: map<int, int>, s: int, t: int, i: nat)
    ensures m + Shift(s, t, i + 1) == (m + Shift(s, t, i))[s + i := t + i]
  {
    hide Shift;
    var p, q := m + Shift(s, t, i + 1), (m + Shift(s, t, i))[s + i := t + i];
    assert forall l :: l in p <==> l in q;
    assert forall l :: l in p ==> p[l] == q[l];
  }

  lemma PinNone(m: map<int, int>, s: int, t: int)
    ensures Agrees(m, s, t, 0) && m + Shift(s, t, 0) == m
  {
  }

  lemma AgreesFewer(m: map<int, int>, s: int, t: int, i: nat, n: nat)
    requires i <= n
    ensures Agrees(m, s, t, n) ==> Agrees(m, s, t, i)
  {
  }

  /** Pins a run of lines, unless one of them is already pinned elsewhere. */
  method PinLines(m0: map<int, int>, s: int, t: int, n: nat) returns (r: Option<map<int, int>>)
    ensures r == if Agrees(m0, s, t, n) then Some(m0 + Shift(s, t, n)) else None
  {
    hide Agrees, Shift;
    var m := m0;
    var i := 0;
    PinNone(m0, s, t);
    while i < n
      invariant 0 <= i <= n && Agrees(m0, s, t, i) && m == m0 + Shift(s, t, i)
    {
      PinStep(m0, s, t, i);
      ShiftStep(m0, s, t, i);
      AgreesFewer(m0, s, t, i + 1, n);
      if s + i in m && m[s + i] != t + i { return None; }
      m := m[s + i := t + i];
      i := i + 1;
    }
    r := Some(m);
  }

  lemma AnchoredStep(x: Context, owners: seq<Function>, k: nat)
    requires k < |owners| && Anchored(x, owners[..k]).Some?
    ensures Anchored(x, owners[..k + 1]) == AnchorStep(x, Anchored(x, owners[..k]).value, owners[k])
  {
    assert owners[..k + 1][..k] == owners[..k];
  }

  lemma {:induction false} AnchoredFails(x: Context, owners: seq<Function>, k: nat)
    requires k <= |owners| && Anchored(x, owners[..k]).None?
    ensures Anchored(x, owners).None?
    decreases |owners| - k
  {
    if k == |owners| {
      assert owners[..k] == owners;
    } else {
      assert owners[..k + 1][..k] == owners[..k];
      AnchoredFails(x, owners, k + 1);
    }
  }

  method AnchorOwners(x: Context, owners: seq<Function>) returns (r: Option<map<int, int>>)
    ensures r == Anchored(x, owners)
  {
    hide CandidateOf, Shift, Agrees;
    var m: map<int, int> := map[];
    var k := 0;
    assert owners[..0] == [];
    while k < |owners|
      invariant 0 <= k <= |owners| && Anchored(x, owners[..k]) == Some(m)
    {
      AnchoredStep(x, owners, k);
      var c := CandidateOf(x, owners[k]);
      if c == Outside {
        AnchoredFails(x, owners, k + 1);
        return None;
      }
      if c.Anchor? {
        var pinned := PinLines(m, c.start, c.image, c.n);
        if pinned.None? {
          AnchoredFails(x, owners, k + 1);
          return None;
        }
        m := pinned.value;
      }
      k := k + 1;
    }
    assert owners[..k] == owners;
    r := Some(m);
  }

  /** The pass over the diff: kept and deleted lines, and the check of the kept blocks. */
  method ReadOps(x: Context, ops: seq<Op>) returns (ok: bool, matched: map<int, int>, deleted: set<int>)
    requires OpsInside(x, ops)
    ensures ok <==> forall k :: 0 <= k < |ops| ==> BlockOk(x, ops[k])
    ensures ok ==> matched == Matched(ops) && deleted == Deleted(ops)
  {
    hide BlockOk, OpPairs, OpDeletes;
    ok, matched, deleted := true, map[], {};
    var k := 0;
    assert ops[..0] == [];
    while k < |ops|
      invariant 0 <= k <= |ops| && Ordered(ops[..k]) && matched == Matched(ops[..k]) && deleted == Deleted(ops[..k])
      invariant forall j :: 0 <= j < k ==> BlockOk(x, ops[j])
    {
      if !BlockOk(x, ops[k]) {
        ok := false;
        return;
      }
      assert ops[..k + 1][..k] == ops[..k] && ops[..k + 1][k] == ops[k];
      matched, deleted := matched + OpPairs(ops[k]), deleted + OpDeletes(ops[k]);
      k := k + 1;
    }
    assert ops[..k] == ops;
  }

  lemma {:induction false} SiftedFails(x: Context, owners: seq<Function>, anchored: map<int, int>,
      matched: map<int, int>, deleted: set<int>, n: nat, m: nat)
    requires n <= m <= |x.was| && Sifted(x, owners, anchored, matched, deleted, n).None?
    ensures Sifted(x, owners, anchored, matched, deleted, m).None?
    decreases m - n
  {
    hide FateOf;
    if n < m { SiftedFails(x, owners, anchored, matched, deleted, n + 1, m); }
  }

  /** The pass over the kept lines in ascending order. */
  method Sift(x: Context, owners: seq<Function>, anchored: map<int, int>, matched: map<int, int>,
      deleted: set<int>) returns (r: Option<Pairing>)
    ensures r == Sifted(x, owners, anchored, matched, deleted, |x.was|)
  {
    hide FateOf;
    var gone := deleted - anchored.Keys;
    var retained := matched;
    var n := 0;
    while n < |x.was|
      invariant 0 <= n <= |x.was| && Sifted(x, owners, anchored, matched, deleted, n) == Some(Pairing(retained, gone))
    {
      n := n + 1;
      if n in matched {
        var fate := FateOf(x, owners, anchored, gone, n, matched[n]);
        if fate == Refuse {
          SiftedFails(x, owners, anchored, matched, deleted, n, |x.was|);
          return None;
        }
        if fate == Drop {
          gone := gone + {n};
          retained := retained - {n};
        }
      }
    }
    r := Some(Pairing(retained, gone));
  }

  /** The body of the loop over the files. */
  method CompareFile(x: Context, owners: seq<Function>, ops: seq<Op>) returns (r: Option<Pairing>)
    requires OpsInside(x, ops)
    ensures r == Compared(x, owners, ops)
  {
    hide LinesExist, BlockOk, StillCovered, NoNewGap, Sifted, Anchored, Matched, Deleted, Injective;
    if !LinesExist(x) { return None; }
    var ok, matched, deleted := ReadOps(x, ops);
    if !ok { return None; }
    var anchored := AnchorOwners(x, owners);
    if anchored.None? { return None; }
    var sifted := Sift(x, owners, anchored.value, matched, deleted);
    if sifted.None? { return None; }
    var retained := sifted.value.retained + anchored.value;
    ValuesBounded(retained);
    if |retained.Values| != |retained| || !StillCovered(x, retained) || !NoNewGap(x, retained) { return None; }
    r := Some(Pairing(retained, sifted.value.gone));
  }

  // ----- what an accepted correspondence guarantees -----

  /** A dropped line ends a function of the base that is gone from the head with all its lines. */
  ghost predicate Justified(x: Context, owners: seq<Function>, gone: set<int>, line: int) {
    && 1 <= line <= |x.was| && Strip(x.was[line - 1]) == "}" && line - 1 in gone
    && exists f :: f in owners && Ends(x, f, gone, line)
  }

  ghost predicate Ends(x: Context, f: Function, gone: set<int>, line: int) {
    && |Named(x.base, f.name)| == 1 && Named(x.head, f.name) == []
    && (exists k :: 0 <= k < |f.regions| && Has(f.regions[k], line))
    && forall k, l :: 0 <= k < |f.regions| && Has(f.regions[k], l) ==> l in x.before && (l == line || l in gone)
  }

  lemma {:induction false} HoldsRegion(x: Context, f: Function, regions: seq<Region>, line: int)
    requires Holds(x, f, regions, line) == Some(true)
    ensures exists k :: 0 <= k < |regions| && Has(regions[k], line)
  {
    if Has(regions[0], line) {
    } else {
      HoldsRegion(x, f, regions[1..], line);
      var k :| 0 <= k < |regions[1..]| && Has(regions[1..][k], line);
      assert Has(regions[k + 1], line);
    }
  }

  lemma {:induction false} HoldersAmong(x: Context, owners: seq<Function>, line: int, f: Function)
    requires HoldersOf(x, owners, line).Some? && f in HoldersOf(x, owners, line).value
    ensures f in owners && Holds(x, f, f.regions, line) == Some(true)
    decreases |owners|
  {
    hide Holds;
    var n := |owners| - 1;
    assert owners == owners[..n] + [owners[n]];
    if f in HoldersOf(x, owners[..n], line).value { HoldersAmong(x, owners[..n], line, f); }
  }

  lemma DropJustified(x: Context, owners: seq<Function>, anchored: map<int, int>, gone: set<int>, line: int, image: int)
    requires 1 <= line <= |x.was| && FateOf(x, owners, anchored, gone, line, image) == Drop
    ensures line !in anchored && Justified(x, owners, gone, line)
  {
    hide HoldersOf, Holds, Named;
    var f := HoldersOf(x, owners, line).value[0];
    HoldersAmong(x, owners, line, f);
    HoldsRegion(x, f, f.regions, line);
    forall k, l | 0 <= k < |f.regions| && Has(f.regions[k], l) ensures l in x.before && (l == line || l in gone) {
      assert RegionGone(x, gone, f.regions[k], line);
      assert l in Interval(f.regions[k].lineStart, f.regions[k].lineEnd - f.regions[k].lineStart + 1);
    }
    assert Ends(x, f, gone, line);
  }

  lemma JustifiedGrows(x: Context, owners: seq<Function>, gone: set<int>, more: set<int>, line: int)
    requires Justified(x, owners, gone, line) && gone <= more
    ensures Justified(x, owners, more, line)
  {
    var f :| f in owners && Ends(x, f, gone, line);
    assert Ends(x, f, more, line);
  }

  ghost predicate SiftedOk(x: Context, owners: seq<Function>, anchored: map<int, int>, matched: map<int, int>,
      deleted: set<int>, s: Pairing) {
    && (forall l :: l in s.retained ==> l in matched && s.retained[l] == matched[l])
    && (forall l :: l in matched ==> l in s.retained || l in s.gone)
    && (forall l :: l in deleted ==> l in s.gone || l in anchored)
    && (forall l :: l in s.gone ==>
          l !in anchored && (l in deleted || (l in matched && l !in s.retained && Justified(x, owners, s.gone, l))))
  }

  lemma {:induction false} SiftedKeeps(x: Context, owners: seq<Function>, anchored: map<int, int>,
      matched: map<int, int>, deleted: set<int>, n: nat)
    requires n <= |x.was| && Sifted(x, owners, anchored, matched, deleted, n).Some?
    ensures SiftedOk(x, owners, anchored, matched, deleted, Sifted(x, owners, anchored, matched, deleted, n).value)
  {
    hide FateOf, Justified;
    if n > 0 {
      SiftedKeeps(x, owners, anchored, matched, deleted, n - 1);
      var s := Sifted(x, owners, anchored, matched, deleted, n - 1).value;
      if n in matched && FateOf(x, owners, anchored, s.gone, n, matched[n]) == Drop {
        DropKeeps(x, owners, anchored, matched, deleted, s, n);
      }
    }
  }

  lemma DropKeeps(x: Context, owners: seq<Function>, anchored: map<int, int>, matched: map<int, int>, deleted: set<int>,
      s: Pairing, n: nat)
    requires SiftedOk(x, owners, anchored, matched, deleted, s) && 1 <= n <= |x.was| && n in matched
    requires FateOf(x, owners, anchored, s.gone, n, matched[n]) == Drop
    ensures SiftedOk(x, owners, anchored, matched, deleted, Pairing(s.retained - {n}, s.gone + {n}))
  {
    hide FateOf, Justified;
    var gone := s.gone + {n};
    DropJustified(x, owners, anchored, s.gone, n, matched[n]);
    forall l | l in gone && l !in deleted ensures Justified(x, owners, gone, l) {
      JustifiedGrows(x, owners, s.gone, gone, l);
    }
  }

  /**
   What the gate establishes about a file it accepts, for any diff: kept lines have identical text
   and distinct images, none loses coverage, no head line is newly uncovered, and every other
   base line is gone with a reason or was replaced.
   */
  ghost predicate Sound(x: Context, owners: seq<Function>, ops: seq<Op>, r: Pairing) {
    && Injective(r.retained)
    && (forall l :: l in r.retained ==> SameText(x.was, x.now, l, r.retained[l]))
    && (forall l :: l in r.retained && At(x.before, l) > 0 ==> At(x.after, r.retained[l]) > 0)
    && (forall n :: n in x.after && x.after[n] == 0 ==>
          exists l :: l in r.retained && r.retained[l] == n && At(x.before, l) == 0)
    && r.retained.Keys !! r.gone
    && (forall l :: 1 <= l <= |x.was| ==> l in r.retained || l in r.gone || Tagged(ops, Replace, l))
    && (forall l :: l in r.gone ==> 1 <= l <= |x.was| && (Tagged(ops, Delete, l) || Justified(x, owners, r.gone, l)))
    && (forall l :: l in r.gone ==> !exists image :: Pinned(x, owners, l, image))
  }

  lemma RetainedText(x: Context, owners: seq<Function>, ops: seq<Op>, anchored: map<int, int>, s: Pairing)
    requires ValidOps(x.was, x.now, ops) && Ordered(ops) && Graph(x, owners, anchored)
    requires SiftedOk(x, owners, anchored, Matched(ops), Deleted(ops), s)
    ensures forall l :: l in s.retained + anchored ==> SameText(x.was, x.now, l, (s.retained + anchored)[l])
  {
    hide ValidOps, Matched, Deleted, SameText, Pinned, Justified;
    var all := s.retained + anchored;
    forall l | l in all ensures SameText(x.was, x.now, l, all[l]) {
      if l in anchored {
        PinnedText(x, owners, l, anchored[l]);
      } else {
        MatchedText(x.was, x.now, ops, l);
      }
    }
  }

  lemma LinesAccounted(x: Context, owners: seq<Function>, ops: seq<Op>, anchored: map<int, int>, s: Pairing)
    requires ValidOps(x.was, x.now, ops) && Ordered(ops)
    requires SiftedOk(x, owners, anchored, Matched(ops), Deleted(ops), s)
    ensures (s.retained + anchored).Keys !! s.gone
    ensures forall l :: 1 <= l <= |x.was| ==> l in s.retained + anchored || l in s.gone || Tagged(ops, Replace, l)
    ensures forall l :: l in s.gone ==> 1 <= l <= |x.was| && (Tagged(ops, Delete, l) || Justified(x, owners, s.gone, l))
  {
    hide ValidOps, Matched, Deleted, Tagged, Justified;
    forall l | 1 <= l <= |x.was| ensures l in s.retained + anchored || l in s.gone || Tagged(ops, Replace, l) {
      TagsPartition(x.was, x.now, ops, l);
      MatchedExact(ops, l);
      DeletedExact(ops, l);
    }
    forall l | l in s.gone
      ensures 1 <= l <= |x.was| && (Tagged(ops, Delete, l) || Justified(x, owners, s.gone, l))
      ensures l !in s.retained + anchored
    {
      DeletedExact(ops, l);
      MatchedExact(ops, l);
      if l in Deleted(ops) {
        TagInside(x.was, x.now, ops, Delete, l);
        TagsPartition(x.was, x.now, ops, l);
      } else {
        TagInside(x.was, x.now, ops, Equal, l);
      }
    }
    assert forall l :: l in s.gone ==> l !in (s.retained + anchored).Keys;
  }

  /** Every accepted file has a sound correspondence, whatever diff it was computed from. */
  lemma ComparedIsSound(x: Context, owners: seq<Function>, ops: seq<Op>)
    requires ValidOps(x.was, x.now, ops) && OpsInside(x, ops) && Compared(x, owners, ops).Some?
    ensures Sound(x, owners, ops, Compared(x, owners, ops).value)
  {
    hide ValidOps, Matched, Deleted, SameText, Pinned, Justified, Tagged, Sifted, Anchored, BlockOk, SiftedOk;
    hide LinesExist;
    var anchored := Anchored(x, owners).value;
    var s := Sifted(x, owners, anchored, Matched(ops), Deleted(ops), |x.was|).value;
    var r := Compared(x, owners, ops).value;
    AnchorsExact(x, owners);
    SiftedKeeps(x, owners, anchored, Matched(ops), Deleted(ops), |x.was|);
    RetainedText(x, owners, ops, anchored, s);
    LinesAccounted(x, owners, ops, anchored, s);
    forall n | n in x.after && x.after[n] == 0
      ensures exists l :: l in r.retained && r.retained[l] == n && At(x.before, l) == 0
    {
      var l :| l in r.retained && r.retained[l] == n;
      assert At(x.after, n) == 0;
    }
    GoneNotPinned(x, owners, anchored, Matched(ops), Deleted(ops), s);
  }

  lemma GoneNotPinned(x: Context, owners: seq<Function>, anchored: map<int, int>, matched: map<int, int>,
      deleted: set<int>, s: Pairing)
    requires Graph(x, owners, anchored) && SiftedOk(x, owners, anchored, matched, deleted, s)
    ensures forall l :: l in s.gone ==> !exists image :: Pinned(x, owners, l, image)
  {
    hide Pinned, Justified;
  }

  // ----- an unchanged file -----

  ghost predicate Unchanged(x: Context) {
    x.was == x.now && x.before == x.after && x.baseFiles == x.headFiles && x.base == x.head
  }

  /** The diff of a file with itself. */
  function SelfDiff(lines: seq<string>): seq<Op> {
    if lines == [] then [] else [Op(Equal, 0, |lines|, 0, |lines|)]
  }

  lemma SelfDiffValid(lines: seq<string>)
    ensures ValidOps(lines, lines, SelfDiff(lines)) && Ordered(SelfDiff(lines))
    ensures Matched(SelfDiff(lines)) == Shift(1, 1, |lines|) && Deleted(SelfDiff(lines)) == {}
  {
    var ops := SelfDiff(lines);
    if lines != [] {
      assert ops[..0] == [];
      assert OpOk(lines, lines, ops[0]);
      assert Matched(ops) == Matched(ops[..0]) + OpPairs(ops[0]);
      assert Deleted(ops) == Deleted(ops[..0]) + OpDeletes(ops[0]);
    }
  }

  lemma SelfPinned(x: Context, owners: seq<Function>, line: int, image: int)
    requires Unchanged(x) && Pinned(x, owners, line, image) && forall k :: 0 <= k < |owners| ==> owners[k] in x.base
    ensures line == image
  {
    hide CandidateOf;
    var k :| 0 <= k < |owners| && Pins(x, owners[k], line, image);
    SelfCandidate(x, owners[k]);
  }

  lemma SelfCandidate(x: Context, owner: Function)
    requires Unchanged(x) && owner in x.base
    ensures CandidateOf(x, owner).Anchor? ==> CandidateOf(x, owner).start == CandidateOf(x, owner).image
  {
    hide SoleFile, AllPlain;
    assert owner in Named(x.base, owner.name);
    var matches := Named(x.head, owner.name);
    hide Named;
    if |matches| == 1 { assert matches[0] == owner; }
  }

  ghost predicate Identity(m: map<int, int>) {
    forall l :: l in m ==> m[l] == l
  }

  lemma {:induction false} SelfSifted(x: Context, owners: seq<Function>, anchored: map<int, int>, n: nat)
    requires Unchanged(x) && Identity(anchored) && n <= |x.was|
    ensures Sifted(x, owners, anchored, Shift(1, 1, |x.was|), {}, n) == Some(Pairing(Shift(1, 1, |x.was|), {}))
  {
    hide HoldersOf, Removable;
    if n == 0 {
      assert {} - anchored.Keys == {};
    } else {
      SelfSifted(x, owners, anchored, n - 1);
      SelfKept(x, owners, anchored, n);
    }
  }

  lemma SelfKept(x: Context, owners: seq<Function>, anchored: map<int, int>, n: nat)
    requires Unchanged(x) && Identity(anchored) && 1 <= n <= |x.was|
    ensures FateOf(x, owners, anchored, {}, n, n) == Keep
  {
    hide HoldersOf, Removable;
    if n in anchored.Values {
      var k := KeyFor(anchored, n);
      assert k == n;
    }
  }

  /** A file compared with itself is refused only if the report names lines or functions beyond its end. */
  lemma UnchangedFile(x: Context, owners: seq<Function>)
    requires Unchanged(x) && 0 !in x.before && forall k :: 0 <= k < |owners| ==> owners[k] in x.base
    ensures OpsInside(x, SelfDiff(x.was))
    ensures Compared(x, owners, SelfDiff(x.was)).Some? <==> LinesExist(x) && AllInside(x, owners)
    ensures Compared(x, owners, SelfDiff(x.was)).Some? ==>
      Compared(x, owners, SelfDiff(x.was)).value == Pairing(Shift(1, 1, |x.was|), {})
  {
    hide Sifted, Anchored, Matched, Deleted, Pinned, AllInside;
    SelfDiffValid(x.was);
    AnchorsExact(x, owners);
    forall l, s | Pinned(x, owners, l, s) ensures l == s { SelfPinned(x, owners, l, s); }
    if Anchored(x, owners).Some? {
      var anchored := Anchored(x, owners).value;
      forall l | l in anchored ensures anchored[l] == l && 1 <= l <= |x.was| { PinnedText(x, owners, l, anchored[l]); }
      SelfSifted(x, owners, anchored, |x.was|);
      var all := Shift(1, 1, |x.was|);
      assert all + anchored == all;
      SelfAccepted(x);
    }
  }

  lemma SelfAccepted(x: Context)
    requires Unchanged(x) && 0 !in x.before
    ensures LinesExist(x) ==> NoNewGap(x, Shift(1, 1, |x.was|))
    ensures Injective(Shift(1, 1, |x.was|)) && StillCovered(x, Shift(1, 1, |x.was|))
  {
    var all := Shift(1, 1, |x.was|);
    if LinesExist(x) {
      forall n | n in x.after ensures n in all.Values {
        assert n in all && all[n] == n;
      }
    }
  }

  // ----- a file with a repeated line -----

  /** A covered line and its repeat, of which the head keeps one. */
  function RepeatedLine(line: string, before: Counts, after: Counts): Context {
    Context("", [line, line], [line], before, after, map[], map[], [], [])
  }

  const KEEPS_FIRST := [Op(Equal, 0, 1, 0, 1), Op(Delete, 1, 2, 1, 1)]
  const KEEPS_SECOND := [Op(Delete, 0, 1, 0, 0), Op(Equal, 1, 2, 0, 1)]

  lemma {:induction false} SiftedWithoutLoss(x: Context, matched: map<int, int>, deleted: set<int>, n: nat)
    requires n <= |x.was| && forall l :: l in matched ==> At(x.before, l) > 0 ==> matched[l] in x.after
    ensures Sifted(x, [], map[], matched, deleted, n) == Some(Pairing(matched, deleted))
  {
    hide HoldersOf, Removable;
    if n == 0 {
      var none: map<int, int> := map[];
      assert deleted - none.Keys == deleted;
    } else {
      SiftedWithoutLoss(x, matched, deleted, n - 1);
    }
  }

  lemma TwoOps(a: Op, b: Op)
    requires a.a <= a.b && b.a <= b.b
    ensures Matched([a, b]) == OpPairs(a) + OpPairs(b) && Deleted([a, b]) == OpDeletes(a) + OpDeletes(b)
  {
    hide OpPairs, OpDeletes;
    var ops := [a, b];
    assert ops[..1] == [a] && [a][..0] == [];
    assert Matched([a]) == map[] + OpPairs(a) == OpPairs(a);
    assert Deleted([a]) == {} + OpDeletes(a) == OpDeletes(a);
  }

  lemma OneLine(s: int, t: int)
    ensures Shift(s, t, 1) == map[s := t] && Interval(s, 1) == {s}
  {
  }

  lemma KeepsFirst(line: string)
    ensures ValidOps([line, line], [line], KEEPS_FIRST) && Ordered(KEEPS_FIRST)
    ensures Matched(KEEPS_FIRST) == map[1 := 1] && Deleted(KEEPS_FIRST) == {2}
  {
    hide Matched, Deleted, Shift, Interval;
    var was, now := [line, line], [line];
    assert was[0..1] == now[0..1] == [line];
    TwoOps(KEEPS_FIRST[0], KEEPS_FIRST[1]);
    OneLine(1, 1);
    OneLine(2, 1);
  }

  lemma KeepsSecond(line: string)
    ensures ValidOps([line, line], [line], KEEPS_SECOND) && Ordered(KEEPS_SECOND)
    ensures Matched(KEEPS_SECOND) == map[2 := 1] && Deleted(KEEPS_SECOND) == {1}
  {
    hide Matched, Deleted, Shift, Interval;
    var was, now := [line, line], [line];
    assert was[1..2] == now[0..1] == [line];
    TwoOps(KEEPS_SECOND[0], KEEPS_SECOND[1]);
    OneLine(1, 1);
    OneLine(2, 1);
  }

  /**
   The gate accepts a file in which a covered line and its repeat become one line, under either
   of two diffs that pair the head line with different base lines.
   */
  lemma RepeatedLineAccepted(line: string, before: Counts, after: Counts)
    requires SourceBlocks.NoFeed(line) && before.Keys <= {1, 2} && after.Keys == {1} && after[1] > 0
    ensures var x := RepeatedLine(line, before, after);
      && ValidOps(x.was, x.now, KEEPS_FIRST) && OpsInside(x, KEEPS_FIRST)
      && ValidOps(x.was, x.now, KEEPS_SECOND) && OpsInside(x, KEEPS_SECOND)
      && Compared(x, [], KEEPS_FIRST) == Some(Pairing(map[1 := 1], {2}))
      && Compared(x, [], KEEPS_SECOND) == Some(Pairing(map[2 := 1], {1}))
  {
    hide Sifted, Matched, Deleted, ValidOps;
    var x := RepeatedLine(line, before, after);
    KeepsFirst(line);
    KeepsSecond(line);
    SourceBlocks.AdjacentRepeatPasses(line);
    SourceBlocks.LineFoundOnce(line);
    assert x.was[0..1] == [line];
    SiftedWithoutLoss(x, map[1 := 1], {2}, 2);
    SiftedWithoutLoss(x, map[2 := 1], {1}, 2);
    assert map[1 := 1] + map[] == map[1 := 1] && map[2 := 1] + map[] == map[2 := 1];
    assert 1 in map[1 := 1].Values by { assert map[1 := 1][1] == 1; }
    assert 1 in map[2 := 1].Values by { assert map[2 := 1][2] == 1; }
  }
}
