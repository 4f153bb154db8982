/**
 One deletion from end to end: a fully covered function is removed, which lowers the ratios of
 the report, and the gate accepts it with the function taken off.
 */
module CoverageExample {
  import opened Prelude
  import opened Correspondence
  import opened FileAcceptance
  import opened Deletion
  import opened CoverageGate
  import LcovReport

  const NAME := "src/lib.rs"
  const PATH := "/build/src/lib.rs"

  const BEFORE: Counts := map[1 := 1, 2 := 1, 3 := 1, 4 := 1, 5 := 1, 6 := 0]
  const AFTER: Counts := map[1 := 1, 2 := 1, 3 := 0]

  function Spanning(name: string, first: int, last: int): Function {
    Function(name, [PATH], [Region(first, 1, last, 2, 1, 0, 0, 0)])
  }

  const REMOVED := Spanning("f", 1, 3)
  const KEPT := Spanning("g", 4, 6)
  const MOVED := Spanning("g", 1, 3)

  function SideOf(section: LcovReport.Section, mapped: nat, hit: nat, fs: seq<Function>, lines: seq<string>): Side {
    Side(LcovReport.Coverage(1, section.lf, section.lh, mapped, hit, map[PATH := section]),
         map[PATH := NAME], map[NAME := section], fs, map[NAME := lines])
  }

  /** Two functions of three lines each, of which the last line is not covered. */
  function BaseSide(f: seq<string>, g: seq<string>): Side {
    SideOf(LcovReport.Section(BEFORE, 6, 5), 6, 5, [REMOVED, KEPT], f + g)
  }

  function HeadSide(g: seq<string>): Side {
    SideOf(LcovReport.Section(AFTER, 3, 2), 3, 2, [MOVED], g)
  }

  const DELETION := [Op(Delete, 0, 3, 0, 0), Op(Equal, 3, 6, 0, 3)]

  lemma Sizes()
    ensures |BEFORE| == 6 && |AFTER| == 3
    ensures |LcovReport.HitLines(BEFORE)| == 5 && |LcovReport.HitLines(AFTER)| == 2
  {
    assert BEFORE.Keys == {1, 2, 3, 4, 5, 6} && AFTER.Keys == {1, 2, 3};
    assert LcovReport.HitLines(BEFORE) == {1, 2, 3, 4, 5} && LcovReport.HitLines(AFTER) == {1, 2};
  }

  lemma SumOne(section: LcovReport.Section, f: LcovReport.Section -> int)
    ensures LcovReport.SumOf(map[PATH := section], f) == f(section)
  {
    hide LcovReport.SumOf;
    var none: map<string, LcovReport.Section> := map[];
    LcovReport.SumEmpty(none, f);
    LcovReport.SumAdd(none, PATH, section, f);
    assert none[PATH := section] == map[PATH := section];
  }

  lemma SideValid(section: LcovReport.Section, fs: seq<Function>, lines: seq<string>)
    requires LcovReport.SectionOk(section) && section.lf > 0 && section.counts != map[]
    ensures SideOf(section, |section.counts|, |LcovReport.HitLines(section.counts)|, fs, lines).Valid()
  {
    hide LcovReport.SumOf, LcovReport.HitLines;
    SumOne(section, LcovReport.Lf);
    SumOne(section, LcovReport.Lh);
    SumOne(section, LcovReport.Mapped);
    SumOne(section, LcovReport.MappedHit);
    assert |section.counts| > 0 by { assert |section.counts| == 0 ==> section.counts == map[]; }
  }

  lemma SidesValid(f: seq<string>, g: seq<string>)
    ensures BaseSide(f, g).Valid() && HeadSide(g).Valid()
  {
    hide Side.Valid;
    Sizes();
    assert 1 in BEFORE && 1 in AFTER;
    SideValid(LcovReport.Section(BEFORE, 6, 5), [REMOVED, KEPT], f + g);
    SideValid(LcovReport.Section(AFTER, 3, 2), [MOVED], g);
  }

  // ----- the file correspondence -----

  lemma FilterOne<T(!new)>(a: T, p: T -> bool)
    ensures Filter([a], p) == if p(a) then [a] else []
  {
    assert [a][..0] == [];
  }

  lemma FilterTwo<T(!new)>(a: T, b: T, p: T -> bool)
    ensures Filter([a, b], p) == (if p(a) then [a] else []) + (if p(b) then [b] else [])
  {
    assert [a, b][..1] == [a];
    FilterOne(a, p);
  }

  lemma NamedTwo(a: Function, b: Function, name: string)
    ensures Named([a, b], name) == (if a.name == name then [a] else []) + (if b.name == name then [b] else [])
    ensures Named([a], name) == if a.name == name then [a] else []
  {
    FilterTwo(a, b, (f: Function) => f.name == name);
    FilterOne(a, (f: Function) => f.name == name);
  }

  lemma Lookups()
    ensures Named([REMOVED, KEPT], "f") == [REMOVED] && Named([REMOVED, KEPT], "g") == [KEPT]
    ensures Named([MOVED], "f") == [] && Named([MOVED], "g") == [MOVED]
    ensures OwnersOf([REMOVED, KEPT], map[PATH := NAME], NAME) == [REMOVED, KEPT]
  {
    hide Named;
    assert "f"[0] != "g"[0];
    NamedTwo(REMOVED, KEPT, "f");
    NamedTwo(REMOVED, KEPT, "g");
    NamedTwo(MOVED, MOVED, "f");
    NamedTwo(MOVED, MOVED, "g");
    assert REMOVED.filenames[0] == PATH && KEPT.filenames[0] == PATH;
    FilterTwo(REMOVED, KEPT, (f: Function) => Lists(map[PATH := NAME], f, NAME));
  }

  ghost function FileContext(f: seq<string>, g: seq<string>): Context {
    Context(NAME, f + g, g, BEFORE, AFTER, map[PATH := NAME], map[PATH := NAME], [REMOVED, KEPT], [MOVED])
  }

  lemma OnlyRegion(name: string, first: int, last: int)
    ensures Extent(Spanning(name, first, last).regions, first, last)
    ensures Resident(map[PATH := NAME], Spanning(name, first, last), NAME)
  {
    assert Spanning(name, first, last).regions[0].lineStart == first;
  }

  lemma KeptMoves(f: seq<string>, g: seq<string>, l: int, image: int)
    requires |f| == 3 && |g| == 3
    ensures MovesLine(FileContext(f, g), KEPT, l, image) <==> 4 <= l <= 6 && image == l - 3
    ensures !Leaves(FileContext(f, g), KEPT)
  {
    hide Extent, Resident, Named;
    var x := FileContext(f, g);
    Lookups();
    OnlyRegion("g", 4, 6);
    OnlyRegion("g", 1, 3);
    assert Spanned(x, KEPT, MOVED, 4, 6, 1, 3);
    forall q, a, b, c, d | Spanned(x, KEPT, q, a, b, c, d) ensures q == MOVED && a == 4 && b == 6 && c == 1 && d == 3 {
      SpannedOnce(x, KEPT, MOVED, q, 4, 6, 1, 3, a, b, c, d);
    }
    hide Spanned;
    assert x.was[3..6] == g == x.now[0..3];
    if 4 <= l <= 6 && image == l - 3 { assert Carries(x, 4, 6, 1, 3, l, image); }
  }

  lemma RemovedStays(f: seq<string>, g: seq<string>, l: int, image: int)
    ensures !MovesLine(FileContext(f, g), REMOVED, l, image) && !Leaves(FileContext(f, g), REMOVED)
  {
    hide Extent, Resident, Named;
    Lookups();
  }

  lemma AnchorsOf(f: seq<string>, g: seq<string>)
    requires |f| == 3 && |g| == 3
    ensures AnchorsAre(FileContext(f, g), [REMOVED, KEPT], map[4 := 1, 5 := 2, 6 := 3])
  {
    hide Leaves, MovesLine;
    var x, owners := FileContext(f, g), [REMOVED, KEPT];
    var anchored: map<int, int> := map[4 := 1, 5 := 2, 6 := 3];
    forall l, image ensures Carried(x, owners, l, image) <==> l in anchored && anchored[l] == image {
      RemovedStays(f, g, l, image);
      KeptMoves(f, g, l, image);
      assert owners[0] == REMOVED && owners[1] == KEPT;
      if 4 <= l <= 6 && image == l - 3 { assert MovesLine(x, owners[1], l, image); }
    }
    RemovedStays(f, g, 0, 0);
    KeptMoves(f, g, 0, 0);
  }

  lemma DeletionOps(f: seq<string>, g: seq<string>)
    requires |f| == 3 && |g| == 3
    ensures ValidOps(f + g, g, DELETION) && Ordered(DELETION)
    ensures Matched(DELETION) == map[4 := 1, 5 := 2, 6 := 3] && Deleted(DELETION) == {1, 2, 3}
  {
    hide Matched, Deleted, ValidOps;
    DeletionReads();
    DeletionIsValid(f, g);
  }

  lemma DeletionReads()
    ensures Matched(DELETION) == map[4 := 1, 5 := 2, 6 := 3] && Deleted(DELETION) == {1, 2, 3}
  {
    hide Matched, Deleted, Shift, Interval;
    TwoOps(DELETION[0], DELETION[1]);
    ThreeLines();
  }

  lemma DeletionIsValid(f: seq<string>, g: seq<string>)
    requires |f| == 3 && |g| == 3
    ensures ValidOps(f + g, g, DELETION)
  {
    assert (f + g)[3..6] == g[0..3];
  }

  lemma ThreeLines()
    ensures Shift(4, 1, 3) == map[4 := 1, 5 := 2, 6 := 3] && Interval(1, 3) == {1, 2, 3}
  {
    hide Shift, Interval;
  }

  lemma NoTrouble(f: seq<string>, g: seq<string>, anchored: map<int, int>)
    requires anchored == map[4 := 1, 5 := 2, 6 := 3]
    ensures var x := FileContext(f, g);
      Troubles(x, anchored, anchored, 6) == {} && GoneBy(x, anchored, anchored, {1, 2, 3}, 6) == {1, 2, 3}
  {
    var x := FileContext(f, g);
    forall l ensures !InTrouble(x, anchored, anchored, l) { }
    hide InTrouble;
    assert Troubles(x, anchored, anchored, 6) == {};
  }

  lemma NothingAtRisk(f: seq<string>, g: seq<string>)
    requires |f| == 3 && |g| == 3 && OpsInside(FileContext(f, g), DELETION)
    ensures BlocksFound(FileContext(f, g), DELETION)
  {
    var x := FileContext(f, g);
    forall k, l | 0 <= k < |DELETION| ensures !AtRisk(x, DELETION[k], l) { assert k == 0 || k == 1; }
  }

  lemma CoverageKept(f: seq<string>, g: seq<string>, retained: map<int, int>)
    requires retained == map[4 := 1, 5 := 2, 6 := 3]
    ensures var x := FileContext(f, g);
      && (forall i, j :: i in retained && j in retained && retained[i] == retained[j] ==> i == j)
      && (forall l :: l in retained && At(x.before, l) > 0 ==> At(x.after, retained[l]) > 0)
      && (forall image :: image in x.after && x.after[image] == 0 ==> exists l :: l in retained && retained[l] == image)
  {
    assert retained[6] == 3;
  }

  lemma FileAccepted(f: seq<string>, g: seq<string>)
    requires |f| == 3 && |g| == 3
    ensures OpsInside(FileContext(f, g), DELETION)
    ensures Compared(FileContext(f, g), [REMOVED, KEPT], DELETION) ==
      Some(Pairing(map[4 := 1, 5 := 2, 6 := 3], {1, 2, 3}))
  {
    hide Compared, Matched, Deleted, AnchorsAre, ValidOps, Troubles, GoneBy, Closes, BlocksFound, At;
    var x := FileContext(f, g);
    var anchored: map<int, int> := map[4 := 1, 5 := 2, 6 := 3];
    DeletionOps(f, g);
    AnchorsOf(f, g);
    NoTrouble(f, g, anchored);
    NothingAtRisk(f, g);
    CoverageKept(f, g, anchored);
    assert anchored - {} + anchored == anchored;
    var p := Pairing(anchored, {1, 2, 3});
    assert Accepts(x, [REMOVED, KEPT], DELETION, anchored, p);
    ComparedExact(x, [REMOVED, KEPT], DELETION, p);
  }

  // ----- the attribution -----

  ghost function Attribution(): Base {
    Base([REMOVED, KEPT], [MOVED], map[PATH := NAME], map[NAME := BEFORE], map[NAME := {1, 2, 3}])
  }

  lemma RegionHolds(fn: Function, l: int)
    requires fn == REMOVED || fn == KEPT
    ensures Attribution().Valid()
    ensures HoldsDeleted(Attribution(), fn, fn.regions[0], l) <==> fn == REMOVED && 1 <= l <= 3
  {
  }

  lemma WhoIsAffected()
    ensures Attribution().Valid()
    ensures Affected(Attribution(), REMOVED) && !Affected(Attribution(), KEPT)
    ensures FilesNamed(REMOVED) && FilesNamed(KEPT)
  {
    hide Touched, HoldsDeleted;
    var b := Attribution();
    RegionHolds(REMOVED, 1);
    AffectedCount(b, REMOVED);
    AffectedCount(b, KEPT);
    forall l ensures !HoldsDeleted(b, KEPT, KEPT.regions[0], l) { RegionHolds(KEPT, l); }
  }

  lemma RemovedIsDeletable()
    ensures Attribution().Valid() && Deletable(Attribution(), REMOVED, NAME)
  {
    hide Named;
    Lookups();
    RemovedLinesGone();
    assert Lookup(map[PATH := NAME], PATH) == Some(NAME);
  }

  lemma RemovedLinesGone()
    ensures Attribution().Valid() && |REMOVED.regions| == 1 && Measured(REMOVED.regions[0])
    ensures forall l :: Has(REMOVED.regions[0], l) ==> l in Attribution().removed[NAME] && l in Attribution().counts[NAME]
  {
  }

  lemma AllAttributed()
    ensures Attribution().Valid() && Attributable(Attribution(), [REMOVED, KEPT])
  {
    hide Affected, FilesNamed, Deletable;
    WhoIsAffected();
    RemovedIsDeletable();
    assert HasHome(Attribution(), REMOVED);
  }

  lemma RemovedLinesAre()
    ensures LinesOf(REMOVED.regions) == {1, 2, 3} == HitsOf(REMOVED.regions)
    ensures |LinesOf(REMOVED.regions)| == 3 == |HitsOf(REMOVED.regions)|
  {
    forall l ensures l in LinesOf(REMOVED.regions) <==> l in {1, 2, 3} {
      LinesExact(REMOVED.regions, l);
      assert HeldBy(REMOVED.regions, l) <==> Has(REMOVED.regions[0], l);
    }
    forall l ensures l in HitsOf(REMOVED.regions) <==> l in {1, 2, 3} {
      LinesExact(REMOVED.regions, l);
      assert HitBy(REMOVED.regions, l) <==> Has(REMOVED.regions[0], l);
    }
  }

  lemma WhatIsTaken()
    ensures Attribution().Valid()
    ensures LinesTaken(Attribution(), [REMOVED, KEPT], NAME) == 3
    ensures HitsTaken(Attribution(), [REMOVED, KEPT], NAME) == 3
  {
    hide Affected, LinesOf, HitsOf;
    WhoIsAffected();
    RemovedLinesAre();
    var b := Attribution();
    assert [REMOVED, KEPT][..1] == [REMOVED] && [REMOVED][..0] == [];
    assert InHome(b, REMOVED, NAME);
    assert LinesTaken(b, [REMOVED], NAME) == 3 && HitsTaken(b, [REMOVED], NAME) == 3;
  }

  // ----- the gate -----

  ghost function Diff(): Diffs {
    map[NAME := DELETION]
  }

  lemma SidesCompare(f: seq<string>, g: seq<string>)
    requires |f| == 3 && |g| == 3
    ensures Comparable(BaseSide(f, g), HeadSide(g), Diff())
  {
    hide Side.Valid, ValidOps;
    SidesValid(f, g);
    DeletionOps(f, g);
  }

  lemma ContextIs(f: seq<string>, g: seq<string>)
    ensures ContextOf(BaseSide(f, g), HeadSide(g), NAME) == FileContext(f, g)
    ensures OwnersOf(BaseSide(f, g).functions, BaseSide(f, g).files, NAME) == [REMOVED, KEPT]
  {
    hide OwnersOf;
    Lookups();
  }

  lemma FilePasses(f: seq<string>, g: seq<string>)
    requires |f| == 3 && |g| == 3 && Comparable(BaseSide(f, g), HeadSide(g), Diff())
    ensures FileOutcome(BaseSide(f, g), HeadSide(g), Diff(), NAME) ==
      Some(Pairing(map[4 := 1, 5 := 2, 6 := 3], {1, 2, 3}))
  {
    hide Compared, Comparable, OwnersOf, FileOutcome, ContextOf, FileContext, OpsInside;
    OutcomeIs(BaseSide(f, g), HeadSide(g), Diff(), NAME);
    ContextIs(f, g);
    FileAccepted(f, g);
  }

  lemma FilesPass(f: seq<string>, g: seq<string>)
    requires |f| == 3 && |g| == 3 && Comparable(BaseSide(f, g), HeadSide(g), Diff())
    ensures FilesAccepted(BaseSide(f, g), HeadSide(g), Diff())
    ensures RemovedLines(BaseSide(f, g), HeadSide(g), Diff()) == map[NAME := {1, 2, 3}]
  {
    hide Comparable, FileOutcome;
    FilePasses(f, g);
    assert BaseSide(f, g).sections.Keys == {NAME};
  }

  lemma GoneFigures()
    ensures |GoneLines(BEFORE, {1, 2, 3})| == 3 == |GoneHits(BEFORE, {1, 2, 3})|
  {
    assert GoneLines(BEFORE, {1, 2, 3}) == {1, 2, 3} == GoneHits(BEFORE, {1, 2, 3});
  }

  lemma TotalOne(m: map<string, int>, n: int)
    requires m == map[NAME := n]
    ensures Total(m) == n
  {
    TotalRemove(m, NAME);
    assert m - {NAME} == map[];
  }

  ghost const GONE: map<string, set<int>> := map[NAME := {1, 2, 3}]

  lemma SameFiles(f: seq<string>, g: seq<string>)
    ensures BaseSide(f, g).sections.Keys == HeadSide(g).sections.Keys == GONE.Keys == {NAME}
    ensures DeletionBase(BaseSide(f, g), HeadSide(g), GONE) == Attribution()
  {
    hide Side.Valid;
    var base, head := BaseSide(f, g), HeadSide(g);
    var counts := map name | name in base.sections :: base.sections[name].counts;
    assert counts == map[NAME := BEFORE];
  }

  lemma TakenIs()
    ensures Attribution().Valid() && Total(TakenLines(Attribution())) == 3 == Total(TakenHits(Attribution()))
  {
    hide LinesTaken, HitsTaken, Total;
    WhatIsTaken();
    TotalOne(TakenLines(Attribution()), 3);
    TotalOne(TakenHits(Attribution()), 3);
  }

  lemma GoneIs(f: seq<string>, g: seq<string>)
    ensures var s := BaseSide(f, g).sections;
      Total(GoneCounts(s, s.Keys, GONE)) == 3 == Total(GoneHitCounts(s, s.Keys, GONE))
  {
    hide GoneLines, GoneHits, Total;
    var s := BaseSide(f, g).sections;
    GoneFigures();
    TotalOne(GoneCounts(s, s.Keys, GONE), 3);
    TotalOne(GoneHitCounts(s, s.Keys, GONE), 3);
  }

  lemma DeductedIs(f: seq<string>, g: seq<string>)
    requires BaseSide(f, g).Valid() && BaseSide(f, g).sections.Keys == HeadSide(g).sections.Keys == GONE.Keys
    ensures DeductionsFor(BaseSide(f, g), HeadSide(g), GONE) == Deductions(3, 3, 3, 3)
  {
    hide Side.Valid, BaseSide, HeadSide, DeletionBase, TakenLines, TakenHits, GoneCounts, GoneHitCounts, Total;
    SameFiles(f, g);
    TakenIs();
    GoneIs(f, g);
  }

  lemma Explained(f: seq<string>, g: seq<string>)
    requires BaseSide(f, g).Valid() && BaseSide(f, g).sections.Keys == HeadSide(g).sections.Keys == GONE.Keys
    ensures DeletionExplains(BaseSide(f, g), HeadSide(g), GONE)
  {
    hide Side.Valid, Attributable, DeductionsFor, DeletionBase, Moved, Owned, LinesTaken, HitsTaken;
    var base, head := BaseSide(f, g), HeadSide(g);
    SameFiles(f, g);
    DeductedIs(f, g);
    AllAttributed();
    WhatIsTaken();
    forall l | l in {1, 2, 3} ensures Owned(Attribution(), [REMOVED, KEPT], NAME, l) { LineOwned(l); }
    FileMoved();
    assert DeletionsOwned(base, head, GONE) && AllMoved(base, head, GONE);
  }

  lemma LineOwned(l: int)
    requires 1 <= l <= 3
    ensures Attribution().Valid() && Owned(Attribution(), [REMOVED, KEPT], NAME, l)
  {
    hide Whole;
    RemovedIsDeletable();
    assert Has(REMOVED.regions[0], l) && REMOVED in [REMOVED, KEPT];
  }

  lemma FileMoved()
    ensures Moved(LcovReport.Section(BEFORE, 6, 5), LcovReport.Section(AFTER, 3, 2), {1, 2, 3}, 3, 3)
  {
    Sizes();
    GoneFigures();
  }

  /** The ratios fall from 5 of 6 to 2 of 3, and the gate accepts with the three lines of `f` taken off. */
  lemma DeletedFunctionAccepted(f: seq<string>, g: seq<string>)
    requires |f| == 3 && |g| == 3
    ensures Comparable(BaseSide(f, g), HeadSide(g), Diff())
    ensures !NoRegression(FiguresOf(BaseSide(f, g).coverage), FiguresOf(HeadSide(g).coverage))
    ensures Gated(BaseSide(f, g), HeadSide(g), Diff()) == Some(Deductions(3, 3, 3, 3))
  {
    hide Comparable, Gated, DeletionExplains, DeductionsFor, FilesAccepted, RemovedLines, Side.Valid;
    SidesCompare(f, g);
    SidesValid(f, g);
    FilesPass(f, g);
    SameFiles(f, g);
    DeductedIs(f, g);
    Explained(f, g);
    DeletionGate(BaseSide(f, g), HeadSide(g), Diff());
  }
}
