/**
 Exactly which files the coverage gate accepts: the conditions on the reports, the diff and the
 functions, written without the passes that check them.
 */
module FileAcceptance {
  import opened Prelude
  import opened Text
  import opened Correspondence
  import SourceBlocks

  // ----- functions that keep their lines -----

  /** The lines from the first to the last that the regions span. */
  ghost predicate Extent(rs: seq<Region>, first: int, last: int) {
    && (forall k :: 0 <= k < |rs| ==> first <= rs[k].lineStart && rs[k].lineEnd <= last)
    && (exists k :: 0 <= k < |rs| && rs[k].lineStart == first)
    && (exists k :: 0 <= k < |rs| && rs[k].lineEnd == last)
  }

  /** A function with regions that all lie plainly in this one file. */
  ghost predicate Resident(files: map<string, string>, f: Function, name: string) {
    && |f.filenames| == 1 && f.filenames[0] in files && files[f.filenames[0]] == name && f.regions != []
    && forall k :: 0 <= k < |f.regions| ==>
      f.regions[k].fileId == 0 && f.regions[k].expandedId == 0 && f.regions[k].kind == 0
  }

  /** The only function of its name on either side, resident in this file on both. */
  ghost predicate Counterpart(x: Context, owner: Function, current: Function) {
    && |Named(x.base, owner.name)| == 1 && Named(x.head, owner.name) == [current]
    && Resident(x.baseFiles, owner, x.name) && Resident(x.headFiles, current, x.name)
  }

  ghost predicate Spanned(x: Context, owner: Function, current: Function, a: int, b: int, c: int, d: int) {
    Counterpart(x, owner, current) && Extent(owner.regions, a, b) && Extent(current.regions, c, d)
  }

  ghost predicate Fits(x: Context, a: int, b: int, c: int, d: int) {
    1 <= a <= b <= |x.was| && 1 <= c <= d <= |x.now|
  }

  lemma ExtentUnique(rs: seq<Region>, a: int, b: int)
    requires rs != []
    ensures Extent(rs, a, b) <==> a == MinStart(rs) && b == MaxEnd(rs)
  {
  }

  lemma ResidentIs(files: map<string, string>, f: Function, name: string)
    ensures Resident(files, f, name) <==> SoleFile(files, f, name) && AllPlain(f)
  {
    if AllPlain(f) {
      forall k | 0 <= k < |f.regions| ensures f.regions[k].kind == 0 { assert Plain(f.regions[k]); }
    }
  }

  lemma CounterpartIs(x: Context, owner: Function, current: Function)
    ensures Counterpart(x, owner, current) <==>
      && |Named(x.base, owner.name)| == 1 && Named(x.head, owner.name) == [current]
      && SoleFile(x.baseFiles, owner, x.name) && SoleFile(x.headFiles, current, x.name)
      && AllPlain(owner) && AllPlain(current)
  {
    hide Resident, SoleFile, AllPlain, Named;
    ResidentIs(x.baseFiles, owner, x.name);
    ResidentIs(x.headFiles, current, x.name);
  }

  lemma SpannedOnce(x: Context, owner: Function, p: Function, q: Function, a: int, b: int, c: int, d: int,
      a': int, b': int, c': int, d': int)
    requires Spanned(x, owner, p, a, b, c, d) && Spanned(x, owner, q, a', b', c', d')
    ensures p == q && a == a' && b == b' && c == c' && d == d'
  {
    hide Extent, Named;
    assert [p] == [q] && p == [p][0];
    ExtentUnique(owner.regions, a, b);
    ExtentUnique(owner.regions, a', b');
    ExtentUnique(p.regions, c, d);
    ExtentUnique(p.regions, c', d');
  }

  lemma NoCounterpart(x: Context, owner: Function)
    requires forall current :: !Counterpart(x, owner, current)
    ensures CandidateOf(x, owner) == Skip
  {
    hide Named, SoleFile, AllPlain, MinStart, MaxEnd;
    var matches := Named(x.head, owner.name);
    if |matches| == 1 {
      assert matches == [matches[0]];
      CounterpartIs(x, owner, matches[0]);
    }
  }

  lemma WithCounterpart(x: Context, owner: Function, current: Function) returns (a: int, b: int, c: int, d: int)
    requires Counterpart(x, owner, current)
    ensures Spanned(x, owner, current, a, b, c, d)
    ensures CandidateOf(x, owner) ==
      if !Fits(x, a, b, c, d) then Outside
      else if x.was[a - 1..b] == x.now[c - 1..d] then Anchor(a, c, b - a + 1) else Skip
  {
    hide Named, SoleFile, Extent;
    CounterpartIs(x, owner, current);
    a, b := MinStart(owner.regions), MaxEnd(owner.regions);
    c, d := MinStart(current.regions), MaxEnd(current.regions);
    ExtentUnique(owner.regions, a, b);
    ExtentUnique(current.regions, c, d);
    hide MinStart, MaxEnd;
  }

  /** The function kept its text, and with it this line moved to that one. */
  ghost predicate MovesLine(x: Context, owner: Function, l: int, image: int) {
    exists current, a, b, c, d :: Spanned(x, owner, current, a, b, c, d) && Carries(x, a, b, c, d, l, image)
  }

  ghost predicate Carries(x: Context, a: int, b: int, c: int, d: int, l: int, image: int) {
    Fits(x, a, b, c, d) && x.was[a - 1..b] == x.now[c - 1..d] && a <= l <= b && image == l - a + c
  }

  ghost predicate Leaves(x: Context, owner: Function) {
    exists current, a, b, c, d :: Spanned(x, owner, current, a, b, c, d) && !Fits(x, a, b, c, d)
  }

  /** What a base function says about its lines, in terms of its counterpart. */
  lemma CandidateExact(x: Context, owner: Function)
    ensures CandidateOf(x, owner) == Outside <==> Leaves(x, owner)
    ensures forall l, image :: Pins(x, owner, l, image) <==> MovesLine(x, owner, l, image)
  {
    hide Counterpart, Extent, CandidateOf, Fits;
    if current :| Counterpart(x, owner, current) {
      var a, b, c, d := WithCounterpart(x, owner, current);
      forall q, a', b', c', d' | Spanned(x, owner, q, a', b', c', d')
        ensures q == current && a' == a && b' == b && c' == c && d' == d
      {
        SpannedOnce(x, owner, current, q, a, b, c, d, a', b', c', d');
      }
      hide Spanned;
      forall l, image ensures Pins(x, owner, l, image) <==> MovesLine(x, owner, l, image) {
        PinsThere(x, owner, current, a, b, c, d, l, image);
      }
    } else {
      NoCounterpart(x, owner);
    }
  }

  lemma PinsThere(x: Context, owner: Function, current: Function, a: int, b: int, c: int, d: int, l: int, image: int)
    requires Spanned(x, owner, current, a, b, c, d)
    requires forall q, a', b', c', d' :: Spanned(x, owner, q, a', b', c', d') ==>
      q == current && a' == a && b' == b && c' == c && d' == d
    requires CandidateOf(x, owner) ==
      if !Fits(x, a, b, c, d) then Outside
      else if x.was[a - 1..b] == x.now[c - 1..d] then Anchor(a, c, b - a + 1) else Skip
    ensures Pins(x, owner, l, image) <==> MovesLine(x, owner, l, image)
  {
    hide Spanned, CandidateOf;
  }

  // ----- lines that end a deleted function -----

  /** Region `k` of the function lies in this file and holds the line. */
  ghost predicate HoldsAt(x: Context, f: Function, regions: seq<Region>, k: int, line: int) {
    && 0 <= k < |regions| && FileOf(f, regions[k]).Some? && FileOf(f, regions[k]).value in x.baseFiles
    && x.baseFiles[FileOf(f, regions[k]).value] == x.name && regions[k].lineStart <= line <= regions[k].lineEnd
  }

  /** Every region before one that holds the line names a file. */
  ghost predicate NamedUpTo(f: Function, regions: seq<Region>, k: int) {
    forall j :: 0 <= j < k && j < |regions| ==> FileOf(f, regions[j]).Some?
  }

  lemma {:induction false} HoldsExact(x: Context, f: Function, regions: seq<Region>, line: int)
    ensures Holds(x, f, regions, line) == Some(true) <==>
      exists k :: HoldsAt(x, f, regions, k, line) && NamedUpTo(f, regions, k)
    ensures Holds(x, f, regions, line) == Some(false) <==>
      NamedUpTo(f, regions, |regions|) && forall k :: !HoldsAt(x, f, regions, k, line)
    decreases |regions|
  {
    hide FileOf;
    if regions != [] {
      var rest := regions[1..];
      HoldsExact(x, f, rest, line);
      forall k ensures HoldsAt(x, f, rest, k, line) <==> k >= 0 && HoldsAt(x, f, regions, k + 1, line) {
        if 0 <= k < |rest| { assert rest[k] == regions[k + 1]; }
      }
      forall k: nat | k <= |rest|
        ensures NamedUpTo(f, regions, k + 1) <==> FileOf(f, regions[0]).Some? && NamedUpTo(f, rest, k)
      {
        NamedShift(f, regions, k);
      }
      HoldsStep(x, f, regions, line);
      hide Holds, HoldsAt, NamedUpTo;
      if HoldsAt(x, f, regions, 0, line) {
        NothingBefore(f, regions);
      } else if k :| HoldsAt(x, f, regions, k, line) && NamedUpTo(f, regions, k) {
        HoldsLater(x, f, regions, k, line);
        assert HoldsAt(x, f, rest, k - 1, line) && NamedUpTo(f, rest, k - 1);
      }
    }
  }

  lemma NothingBefore(f: Function, regions: seq<Region>)
    ensures NamedUpTo(f, regions, 0)
  {
  }

  lemma HoldsLater(x: Context, f: Function, regions: seq<Region>, k: int, line: int)
    requires HoldsAt(x, f, regions, k, line) && !HoldsAt(x, f, regions, 0, line) && NamedUpTo(f, regions, k)
    ensures 1 <= k < |regions| && FileOf(f, regions[0]).Some?
  {
  }

  lemma NamedShift(f: Function, regions: seq<Region>, k: nat)
    requires regions != [] && k < |regions|
    ensures NamedUpTo(f, regions, k + 1) <==> FileOf(f, regions[0]).Some? && NamedUpTo(f, regions[1..], k)
  {
    hide FileOf;
    var rest := regions[1..];
    assert forall j :: 0 <= j < |rest| ==> rest[j] == regions[j + 1];
    if NamedUpTo(f, regions, k + 1) {
      forall j | 0 <= j < k && j < |rest| ensures FileOf(f, rest[j]).Some? { assert FileOf(f, regions[j + 1]).Some?; }
    }
    if FileOf(f, regions[0]).Some? && NamedUpTo(f, rest, k) {
      forall j | 0 <= j < k + 1 && j < |regions| ensures FileOf(f, regions[j]).Some? {
        if j > 0 { assert regions[j] == rest[j - 1]; }
      }
    }
  }

  lemma HoldsStep(x: Context, f: Function, regions: seq<Region>, line: int)
    requires regions != []
    ensures Holds(x, f, regions, line) ==
      if FileOf(f, regions[0]).None? then None
      else if HoldsAt(x, f, regions, 0, line) then Some(true)
      else Holds(x, f, regions[1..], line)
  {
    hide FileOf;
  }

  ghost predicate NoneHolds(x: Context, owners: seq<Function>, line: int) {
    forall j :: 0 <= j < |owners| ==> Holds(x, owners[j], owners[j].regions, line) == Some(false)
  }

  /** The line lies in one function of the file and, as far as can be told, in no other. */
  ghost predicate Alone(x: Context, owners: seq<Function>, line: int, i: int) {
    && 0 <= i < |owners| && Holds(x, owners[i], owners[i].regions, line) == Some(true)
    && forall j :: 0 <= j < |owners| && j != i ==> Holds(x, owners[j], owners[j].regions, line) == Some(false)
  }

  lemma {:induction false} HoldersExact(x: Context, owners: seq<Function>, line: int)
    ensures HoldersOf(x, owners, line) == Some([]) <==> NoneHolds(x, owners, line)
    ensures forall i :: Alone(x, owners, line, i) ==> HoldersOf(x, owners, line) == Some([owners[i]])
    ensures HoldersOf(x, owners, line).Some? && |HoldersOf(x, owners, line).value| == 1 ==>
      exists i :: Alone(x, owners, line, i)
    decreases |owners|
  {
    hide Holds;
    if owners != [] {
      var n := |owners| - 1;
      var init, last := owners[..n], owners[n];
      HoldersExact(x, init, line);
      assert forall j :: 0 <= j < n ==> init[j] == owners[j];
      forall i ensures Alone(x, owners, line, i) <==>
        || (0 <= i < n && Alone(x, init, line, i) && Holds(x, last, last.regions, line) == Some(false))
        || (i == n && NoneHolds(x, init, line) && Holds(x, last, last.regions, line) == Some(true))
      {
        AloneStep(x, owners, line, i);
      }
      assert NoneHolds(x, owners, line) <==>
        NoneHolds(x, init, line) && Holds(x, last, last.regions, line) == Some(false);
      var held := Holds(x, last, last.regions, line);
      if held.Some? { assert held == if held.value then Some(true) else Some(false); }
      hide NoneHolds, Alone;
      var fs := HoldersOf(x, init, line);
      assert fs.Some? ==> fs.value + [] == fs.value;
      assert [] + [last] == [owners[n]];
      if held == Some(true) && fs == Some([]) {
        assert Alone(x, owners, line, n);
      } else if held == Some(false) && fs.Some? && |fs.value| == 1 {
        var i :| Alone(x, init, line, i);
        AloneInside(x, init, line, i);
        assert Alone(x, owners, line, i);
      }
    }
  }

  lemma AloneInside(x: Context, owners: seq<Function>, line: int, i: int)
    requires Alone(x, owners, line, i)
    ensures 0 <= i < |owners|
  {
  }

  lemma AloneStep(x: Context, owners: seq<Function>, line: int, i: int)
    requires owners != []
    ensures var n := |owners| - 1; var held := Holds(x, owners[n], owners[n].regions, line);
      Alone(x, owners, line, i) <==>
        || (0 <= i < n && Alone(x, owners[..n], line, i) && held == Some(false))
        || (i == n && NoneHolds(x, owners[..n], line) && held == Some(true))
  {
    hide Holds;
    var n := |owners| - 1;
    assert forall j :: 0 <= j < n ==> owners[..n][j] == owners[j];
  }

  /** The function is gone from the head, its regions are measured, and all its other lines are gone. */
  ghost predicate Vanishes(x: Context, gone: set<int>, f: Function, line: int) {
    && |Named(x.base, f.name)| == 1 && Named(x.head, f.name) == [] && |f.filenames| == 1
    && forall k :: 0 <= k < |f.regions| ==>
      var r := f.regions[k];
      && r.lineStart <= r.lineEnd && (r.lineEnd > r.lineStart ==> r.colEnd > 1) && r.count >= 0
      && r.fileId == 0 && r.expandedId == 0 && r.kind == 0
      && forall l :: r.lineStart <= l <= r.lineEnd ==> l in x.before && (l == line || l in gone)
  }

  lemma VanishesIs(x: Context, gone: set<int>, f: Function, line: int)
    ensures Vanishes(x, gone, f, line) <==> Removable(x, gone, f, line)
  {
    hide Named, Interval;
    if Removable(x, gone, f, line) {
      forall k | 0 <= k < |f.regions|
        ensures RegionGone(x, gone, f.regions[k], line)
        ensures forall l :: f.regions[k].lineStart <= l <= f.regions[k].lineEnd ==>
          l in x.before && (l == line || l in gone)
      {
        var r := f.regions[k];
        assert RegionGone(x, gone, f.regions[k], line);
        forall l | r.lineStart <= l <= r.lineEnd ensures l in x.before && (l == line || l in gone) {
          assert l in Interval(r.lineStart, r.lineEnd - r.lineStart + 1);
        }
      }
    }
    if Vanishes(x, gone, f, line) {
      forall k | 0 <= k < |f.regions| ensures RegionGone(x, gone, f.regions[k], line) {
        var r := f.regions[k];
        assert r.lineStart <= r.lineEnd;
      }
    }
  }

  /** The line closes the only function that holds it, and that function vanishes. */
  ghost predicate Closes(x: Context, owners: seq<Function>, gone: set<int>, line: int) {
    && 1 <= line <= |x.was| && Strip(x.was[line - 1]) == "}" && line - 1 in gone
    && exists i :: Alone(x, owners, line, i) && Vanishes(x, gone, owners[i], line)
  }

  /** The image of the line belongs to another line, or the line was covered and its image is not instrumented. */
  ghost predicate InTrouble(x: Context, anchored: map<int, int>, matched: map<int, int>, line: int) {
    && line in matched && line !in anchored
    && ((exists other :: other in anchored && anchored[other] == matched[line])
        || (At(x.before, line) > 0 && matched[line] !in x.after))
  }

  /** What becomes of one kept line. */
  lemma FateExact(x: Context, owners: seq<Function>, anchored: map<int, int>, matched: map<int, int>, gone: set<int>,
      line: int)
    requires 1 <= line <= |x.was| && line in matched
    ensures FateOf(x, owners, anchored, gone, line, matched[line]) ==
      if !InTrouble(x, anchored, matched, line) then Keep
      else if Closes(x, owners, gone, line) then Drop else Refuse
  {
    hide HoldersOf, Holds, Removable, Vanishes, Strip;
    HoldersExact(x, owners, line);
    var image := matched[line];
    if image in anchored.Values {
      var other := KeyFor(anchored, image);
      assert anchored[other] == matched[line];
    }
    var fs := HoldersOf(x, owners, line);
    if fs.Some? && |fs.value| == 1 {
      assert fs.value == [fs.value[0]];
      VanishesIs(x, gone, fs.value[0], line);
    }
    forall i | Alone(x, owners, line, i)
      ensures fs == Some([owners[i]]) && (Vanishes(x, gone, owners[i], line) <==> Removable(x, gone, owners[i], line))
    {
      AloneInside(x, owners, line, i);
      VanishesIs(x, gone, owners[i], line);
    }
  }

  // ----- the pass over the kept lines -----

  ghost function Troubles(x: Context, anchored: map<int, int>, matched: map<int, int>, n: int): set<int> {
    set l | l in matched && InTrouble(x, anchored, matched, l) && l <= n
  }

  /** All lines that are gone by the time the pass has come to line `n`. */
  ghost function GoneBy(x: Context, anchored: map<int, int>, matched: map<int, int>, deleted: set<int>,
      n: int): set<int>
  {
    deleted - anchored.Keys + Troubles(x, anchored, matched, n)
  }

  ghost predicate AllClose(x: Context, owners: seq<Function>, anchored: map<int, int>, matched: map<int, int>,
      deleted: set<int>, n: int)
  {
    forall l :: l in Troubles(x, anchored, matched, n) ==>
      Closes(x, owners, GoneBy(x, anchored, matched, deleted, l - 1), l)
  }

  lemma TroublesStep(x: Context, anchored: map<int, int>, matched: map<int, int>, n: int)
    ensures Troubles(x, anchored, matched, n) ==
      Troubles(x, anchored, matched, n - 1) + if InTrouble(x, anchored, matched, n) then {n} else {}
  {
    hide InTrouble;
    assert InTrouble(x, anchored, matched, n) ==> n in matched by { TroubleMatched(x, anchored, matched, n); }
  }

  lemma TroubleMatched(x: Context, anchored: map<int, int>, matched: map<int, int>, l: int)
    ensures InTrouble(x, anchored, matched, l) ==> l in matched && l !in anchored
  {
  }

  /** The pass drops exactly the lines in trouble, and succeeds exactly when each closes a vanishing function. */
  lemma {:induction false} SiftedExact(x: Context, owners: seq<Function>, anchored: map<int, int>,
      matched: map<int, int>, deleted: set<int>, n: nat)
    requires n <= |x.was| && forall l :: l in matched ==> l >= 1
    ensures Sifted(x, owners, anchored, matched, deleted, n).Some? <==>
      AllClose(x, owners, anchored, matched, deleted, n)
    ensures Sifted(x, owners, anchored, matched, deleted, n).Some? ==>
      Sifted(x, owners, anchored, matched, deleted, n).value ==
        Pairing(matched - Troubles(x, anchored, matched, n), GoneBy(x, anchored, matched, deleted, n))
  {
    hide FateOf, Closes, InTrouble;
    if n == 0 {
      NoTroubles(x, anchored, matched);
      assert matched - {} == matched;
    } else {
      SiftedExact(x, owners, anchored, matched, deleted, n - 1);
      TroublesStep(x, anchored, matched, n);
      TroubleMatched(x, anchored, matched, n);
      var gone := GoneBy(x, anchored, matched, deleted, n - 1);
      AllCloseStep(x, owners, anchored, matched, deleted, n);
      if n in matched { FateExact(x, owners, anchored, matched, gone, n); }
      var before := Troubles(x, anchored, matched, n - 1);
      assert matched - before - {n} == matched - (before + {n});
      assert deleted - anchored.Keys + before + {n} == deleted - anchored.Keys + (before + {n});
      hide Troubles, AllClose;
    }
  }

  lemma NoTroubles(x: Context, anchored: map<int, int>, matched: map<int, int>)
    requires forall l :: l in matched ==> l >= 1
    ensures Troubles(x, anchored, matched, 0) == {}
  {
  }

  lemma AllCloseStep(x: Context, owners: seq<Function>, anchored: map<int, int>, matched: map<int, int>,
      deleted: set<int>, n: int)
    ensures AllClose(x, owners, anchored, matched, deleted, n) <==>
      && AllClose(x, owners, anchored, matched, deleted, n - 1)
      && (InTrouble(x, anchored, matched, n) ==>
            Closes(x, owners, GoneBy(x, anchored, matched, deleted, n - 1), n))
  {
    hide InTrouble, Closes, GoneBy;
    TroublesStep(x, anchored, matched, n);
    hide Troubles;
  }

  // ----- the whole file -----

  /** A kept block that could be mistaken: it has a covered line, something changed, and it does not end both files. */
  ghost predicate AtRisk(x: Context, op: Op, l: int) {
    && op.tag == Equal && x.was != x.now && op.a < l <= op.b && At(x.before, l) > 0
    && !(op.b == |x.was| && op.d == |x.now|)
  }

  ghost predicate FoundOnce(x: Context, op: Op)
    requires op.a <= op.b <= |x.was|
  {
    var block := x.was[op.a..op.b];
    SourceBlocks.CountedOnce(x.was, block) && SourceBlocks.CountedOnce(x.now, block)
  }

  ghost predicate BlocksFound(x: Context, ops: seq<Op>)
    requires OpsInside(x, ops)
  {
    forall k, l :: 0 <= k < |ops| && AtRisk(x, ops[k], l) ==> FoundOnce(x, ops[k])
  }

  lemma BlocksFoundIs(x: Context, ops: seq<Op>)
    requires OpsInside(x, ops)
    ensures BlocksFound(x, ops) <==> forall k :: 0 <= k < |ops| ==> BlockOk(x, ops[k])
  {
    hide SourceBlocks.CountedOnce;
    if BlocksFound(x, ops) {
      forall k | 0 <= k < |ops| ensures BlockOk(x, ops[k]) {
        if l :| l in x.before && Spans(ops[k], l) && x.before[l] > 0 {
          assert AtRisk(x, ops[k], l) ==> FoundOnce(x, ops[k]);
        }
      }
    }
    if forall k :: 0 <= k < |ops| ==> BlockOk(x, ops[k]) {
      forall k, l | 0 <= k < |ops| && AtRisk(x, ops[k], l) ensures FoundOnce(x, ops[k]) {
        assert BlockOk(x, ops[k]) && l in x.before && Spans(ops[k], l);
      }
    }
  }

  ghost predicate Carried(x: Context, owners: seq<Function>, l: int, image: int) {
    exists k :: 0 <= k < |owners| && MovesLine(x, owners[k], l, image)
  }

  /** The anchors are exactly the lines that functions carried along, and no function leaves the file. */
  ghost predicate AnchorsAre(x: Context, owners: seq<Function>, anchored: map<int, int>) {
    && (forall k :: 0 <= k < |owners| ==> !Leaves(x, owners[k]))
    && (forall l, image :: Carried(x, owners, l, image) <==> l in anchored && anchored[l] == image)
  }

  lemma AnchorsAreExact(x: Context, owners: seq<Function>, anchored: map<int, int>)
    ensures AnchorsAre(x, owners, anchored) <==> Anchored(x, owners) == Some(anchored)
  {
    hide Anchored, Leaves, MovesLine, CandidateOf, Pins;
    AnchorsExact(x, owners);
    forall k | 0 <= k < |owners|
      ensures CandidateOf(x, owners[k]) == Outside <==> Leaves(x, owners[k])
      ensures forall l, image :: Pins(x, owners[k], l, image) <==> MovesLine(x, owners[k], l, image)
    {
      CandidateExact(x, owners[k]);
    }
    assert forall l, image :: Carried(x, owners, l, image) <==> Pinned(x, owners, l, image);
    hide Carried, Pinned;
    assert AnchorsAre(x, owners, anchored) <==> AllInside(x, owners) && Graph(x, owners, anchored);
    if Graph(x, owners, anchored) { GraphCompatible(x, owners, anchored); }
    if Anchored(x, owners).Some? && Graph(x, owners, anchored) {
      GraphUnique(x, owners, Anchored(x, owners).value, anchored);
    }
  }

  lemma GraphCompatible(x: Context, owners: seq<Function>, m: map<int, int>)
    requires Graph(x, owners, m)
    ensures Compatible(x, owners)
  {
    hide Pinned;
  }

  lemma GraphUnique(x: Context, owners: seq<Function>, m: map<int, int>, n: map<int, int>)
    requires Graph(x, owners, m) && Graph(x, owners, n)
    ensures m == n
  {
    hide Pinned;
    forall l ensures l in m <==> l in n {
      if l in m { assert Pinned(x, owners, l, m[l]); }
      if l in n { assert Pinned(x, owners, l, n[l]); }
    }
    forall l | l in m ensures m[l] == n[l] { assert Pinned(x, owners, l, m[l]); }
  }

  /**
   The file is accepted with these anchors: no report goes beyond its file, covered kept blocks
   are found once, every line in trouble closes a vanishing function, no two lines share an
   image, no covered line loses its coverage, and no uncovered head line is new.
   */
  ghost predicate Accepts(x: Context, owners: seq<Function>, ops: seq<Op>, anchored: map<int, int>, p: Pairing)
    requires OpsInside(x, ops)
  {
    var matched, n := Matched(ops), |x.was|;
    && (forall l :: l in x.before ==> l <= |x.was|) && (forall l :: l in x.after ==> l <= |x.now|)
    && BlocksFound(x, ops) && AnchorsAre(x, owners, anchored)
    && AllClose(x, owners, anchored, matched, Deleted(ops), n)
    && p == Pairing(matched - Troubles(x, anchored, matched, n) + anchored,
                    GoneBy(x, anchored, matched, Deleted(ops), n))
    && (forall i, j :: i in p.retained && j in p.retained && p.retained[i] == p.retained[j] ==> i == j)
    && (forall l :: l in p.retained && At(x.before, l) > 0 ==> At(x.after, p.retained[l]) > 0)
    && (forall image :: image in x.after && x.after[image] == 0 ==>
          exists l :: l in p.retained && p.retained[l] == image)
  }

  lemma GapIs(x: Context, retained: map<int, int>)
    ensures NoNewGap(x, retained) <==>
      forall image :: image in x.after && x.after[image] == 0 ==> exists l :: l in retained && retained[l] == image
  {
    if NoNewGap(x, retained) {
      forall image | image in x.after && x.after[image] == 0 ensures exists l :: l in retained && retained[l] == image {
        var l := KeyFor(retained, image);
      }
    }
  }

  /** The comparison accepts a file exactly under those conditions, and with exactly that correspondence. */
  lemma ComparedExact(x: Context, owners: seq<Function>, ops: seq<Op>, p: Pairing)
    requires OpsInside(x, ops)
    ensures Compared(x, owners, ops) == Some(p) <==> exists anchored :: Accepts(x, owners, ops, anchored, p)
  {
    hide Anchored, Sifted, Matched, Deleted, BlockOk, BlocksFound, AllClose, Troubles, GoneBy, AnchorsAre, NoNewGap;
    BlocksFoundIs(x, ops);
    forall anchored ensures AnchorsAre(x, owners, anchored) <==> Anchored(x, owners) == Some(anchored) {
      AnchorsAreExact(x, owners, anchored);
    }
    if Anchored(x, owners).Some? {
      var anchored := Anchored(x, owners).value;
      MatchedPositive(ops);
      SiftedExact(x, owners, anchored, Matched(ops), Deleted(ops), |x.was|);
      GapIs(x, p.retained);
      AcceptsWith(x, owners, ops, anchored, p);
    }
  }

  lemma {:induction false} MatchedPositive(ops: seq<Op>)
    requires Ordered(ops)
    ensures forall l :: l in Matched(ops) ==> l >= 1
  {
    forall l | l in Matched(ops) ensures l >= 1 { MatchedExact(ops, l); }
  }

  lemma AcceptsWith(x: Context, owners: seq<Function>, ops: seq<Op>, anchored: map<int, int>, p: Pairing)
    requires OpsInside(x, ops) && Anchored(x, owners) == Some(anchored)
    requires BlocksFound(x, ops) <==> forall k :: 0 <= k < |ops| ==> BlockOk(x, ops[k])
    requires AnchorsAre(x, owners, anchored)
    requires var matched, deleted, n := Matched(ops), Deleted(ops), |x.was|;
      var s := Sifted(x, owners, anchored, matched, deleted, n);
      && (s.Some? <==> AllClose(x, owners, anchored, matched, deleted, n))
      && (s.Some? ==>
            s.value == Pairing(matched - Troubles(x, anchored, matched, n), GoneBy(x, anchored, matched, deleted, n)))
    requires NoNewGap(x, p.retained) <==>
      forall image :: image in x.after && x.after[image] == 0 ==> exists l :: l in p.retained && p.retained[l] == image
    ensures Compared(x, owners, ops) == Some(p) <==> Accepts(x, owners, ops, anchored, p)
  {
    hide Anchored, Sifted, Matched, Deleted, BlockOk, BlocksFound, AllClose, Troubles, GoneBy, AnchorsAre, NoNewGap;
  }
}
